# Binance market-data pipeline: verified model

A Dafny model of the parts of the pipeline that carry protocol, arithmetic or transformation
obligations, from the collectors to the 10-second mart, with proofs over all inputs, all batches and
all runs.

| files | what they model |
|---|---|
| `KafkaDelivery.dfy`, `KafkaRuns.dfy` | the Kafka producer wrapper: counters, asynchronous reports, the dead-letter topic, the local fallback, on both client libraries |
| `SymbolConfig.dfy`, `SymbolConfigComments.dfy`, `SymbolConfigRoundTrip.dfy`, `PyText.dfy` | the hand-written parser of the symbol configuration, its comment stripper, and a printer |
| `QualityGate.dfy`, `QualityRules.dfy`, `QualityBatch.dfy` | the data quality gate under three-valued logic, its rules column by column, and the batch summary |
| `ChWriter.dfy`, `BatchLedger.dfy`, `BatchChecksum.dfy` | the ClickHouse writer with its dead-letter files, the audit ledger, the batch checksum |
| `Cvd.dfy` | the windowed aggregation of trades, its rollup variant, and the second aggregation in the mart |
| `RowHashPolicy.dfy`, `PyDigits.dfy` | the canonical decimal text and the row hash payload |
| `PartitionRouting.dfy` | partition spans, lanes, and the route of a message |
| `PriceCache.dfy`, `PriceRuns.dfy` | the quote books of the price stream and the derived price columns |
| `TopicContracts.dfy`, `ContractValidation.dfy`, `ContractTotality.dfy`, `ContractGate.dfy` | contract inheritance, validation of collector events, and what validation guarantees to the gate |
| `RestBackoff.dfy` | backoff of the REST pollers |

`dafny verify dfyconfig.toml` checks the project.

## How the source is rendered

Objects whose methods update fields are classes with those fields (`KafkaProducerWrapper`,
`ClickHouseWriter`, `PriceInsight`, `ContractLoader`, `RestBackoffState`); each method is proved against
a pure step function, and the results over runs are lemmas about that function. Loops of the source are
loops in methods with invariants. Column expressions are functions of one row. What the environment
decides (acknowledgements, exceptions, file errors, random draws, clocks, hashes) is an argument, so
every result holds for all of its choices. Exceptions are results or verdicts.

## Where the code falls short of its promise

- A message sent after `close` is counted as a failure but reaches neither the dead-letter topic nor the
  fallback file (`KafkaRuns.DispositionOfMessages`).
- On Confluent a value that does not serialise raises out of `send` after the attempt was counted; the
  conservation of attempts holds over a run exactly when no such send comes before the first close
  (`KafkaRuns.RunConservation`).
- A failed message whose first fallback write fails inside a Confluent callback is counted twice; the
  dead-letter failure counter is exact if and only if no report served in the run does this
  (`KafkaRuns.CallbackCountsOnce`, `KafkaRuns.DlqFailuresCounted`).
- On the two rollup topics a row can be neither valid nor invalid (`QualityGate.RollupRowInNeither`).
- A batch that once failed before it was collected and once reached the insert always leaves a row-count
  conflict in the ledger (`BatchLedger.RetryTraces`).
- Without a checkpoint path the ledger cannot tell batches apart (`BatchLedger.KeysSeparateBatches`).
- A failed dead-letter write is followed by a read of the unassigned `dlq_persisted`; the exception that
  this raises is what keeps the checkpoint from advancing (`ChWriter.ClickHouseWriter.HandleFailure`).
- A quote cache entry can go back in time, when a later batch has only older quotes
  (`PriceRuns.EntryMayGoBack`); it is the newest of the run exactly when the last batch that touches it
  has the newest (`PriceRuns.EntryIsNewestOfRun`).
- In observe mode a raw entry can mix two rows (`PriceRuns.MixedQuote`); it is a whole row exactly when
  bid, ask and time are last filled in the same row (`PriceCache.WholeRowExactly`), as always outside
  observe mode (`PriceRuns.RawEntryIsLastRow`).  Observe mode is also the one mode that lets
  negative spreads through (`PriceRuns.SpreadsHoldExactly`).
- Reading a value as a time is not guarded: "²" is a digit text that `float` rejects, and `int` rejects the
  infinities and NaN that `json.loads` gives, so validation ends in an exception for every contract
  (`ContractTotality.SuperscriptTradeRaises`, `ContractTotality.InfinityRaises`).
- The type checks do not catch OverflowError: an integer beyond the float range stops the validation of a
  trade (`ContractTotality.OversizePriceRaises`).  `ContractTotality.RaisesExactly` says which payloads raise
  on any contract, `ContractTotality.GuardedRaisesExactly` and `ContractTotality.ShippedRaisesExactly` on
  those of the repository.
- NaN passes every quality rule (`ContractTotality.NaNPriceAccepted`); the prices of an accepted book ticker
  are positive and in order exactly when neither is NaN (`ContractGate.AcceptedPrices`).
- In a text column a row with the text "__NULL__" hashes like one with NULL
  (`RowHashPolicy.SentinelCollides`); the hashed text tells apart all other rows whose
  rounded cells differ (`RowHashPolicy.SameHashExactly`).
- A quality rule on a field that is typed but not required fails on `float(None)`
  (`ContractTotality.TypedButAbsent`); the shipped contracts avoid this.
- A jitter ratio above one third can shorten the delay after a further failure
  (`RestBackoff.GrowingExactly`).

## Model

| member | source | states |
|---|---|---|
| `KafkaRuns.RunKeeps` | common/kafka_utils.py:145-582 | After any sequence of sends, bad rows, callbacks, flushes and a close: every message has exactly one fate, every failure not addressed to the dead-letter topic and every bad row has exactly one disposition, and the dead-letter records stay within their bound |
| `KafkaRuns.SendFate` | common/kafka_utils.py:145-268 | One send rejects exactly when closed, raises exactly when a Confluent value does not serialise, and is taken exactly when a produce call succeeds, the retry after a full buffer included; otherwise it is refused |
| `KafkaRuns.SendsAccounted` | common/kafka_utils.py:145-168 | Over any run the calls of send are the rejected ones plus the attempts, and the attempts are the successes, the failures, the pending deliveries and the escaped exceptions |
| `KafkaRuns.DispositionOfMessages` | common/kafka_utils.py:422-582 | Once nothing is pending, a failed message not addressed to the dead-letter topic has exactly one of an acknowledged dead-letter record, a fallback line, or a failed write of the fallback file; any other message has none |
| `KafkaRuns.DispositionOfBadRows` | common/kafka_utils.py:292-397 | Once nothing is pending every bad row is one acknowledged record, one fallback line or one failed write |
| `KafkaRuns.BoundedAmplification` | common/kafka_utils.py:145-582 | The broker gets at most two records per attempt and one per bad row; on Confluent at most one per attempt |
| `KafkaRuns.AmplificationReached` | common/kafka_utils.py:414-420 | On kafka-python the factor two is reached by a nacked message whose dead-letter record is taken |
| `KafkaRuns.ReportsStaySilent` | common/kafka_utils.py:205-222 | No delivery report of a message on Confluent, and no report of a dead-letter record on either backend, makes a client call or enqueues a record |
| `KafkaRuns.ReportsDecide` | common/kafka_utils.py:205-222 | After any run a message is acknowledged or refused, and a dead-letter record too, exactly as often as a report served while it waited says so |
| `KafkaRuns.LinesDecide` | common/kafka_utils.py:422-582 | After any run an origin has a fallback line, or a failed write, exactly for every report on a refused record or message that makes the wrapper write one and for every call that writes one itself, by the outcome of the write |
| `KafkaRuns.RecordReportCounts` | common/kafka_utils.py:553-582 | A report on a dead-letter record counts one failure when the broker has refused it, and none otherwise |
| `KafkaRuns.DlqFailuresCounted` | common/kafka_utils.py:484-545 | After any run the dead-letter failure counter is the number of blocked messages, fallback lines and failed writes plus one for every first write that failed inside a Confluent callback; without the addition exactly when no report served in the run has such a write |
| `KafkaRuns.CallbackCountsOnce` | common/kafka_utils.py:484-545 | Inside a Confluent callback a failure is counted once when the first write succeeds and twice otherwise |
| `KafkaDelivery.Conservation` | common/kafka_utils.py:145-268 | Attempts equal successes plus failures other than rejections plus pending exactly when no serialisation error has escaped from send; pending is the number of messages taken by the client and not yet reported |
| `KafkaRuns.RunConservation` | common/kafka_utils.py:145-268 | After any run attempts equal successes plus failures other than rejections plus pending, exactly when no send to Confluent before the first close had a value that does not serialise |
| `KafkaRuns.EscapedExactly` | common/kafka_utils.py:192-203 | A serialisation error escaped from some send of the run exactly when there was such a send |
| `KafkaDelivery.KafkaProducerWrapper.constructor` | common/kafka_utils.py:122-131 | The counters start at zero and mean what `Counts` says |
| `KafkaDelivery.KafkaProducerWrapper.DecrementPending` | common/kafka_utils.py:612-614 | The pending counter goes down by one but never below zero |
| `KafkaDelivery.KafkaProducerWrapper.Send` | common/kafka_utils.py:145-190 | All counters keep their meaning, and the world changes as the pure step says: rejected when closed, otherwise sent on the backend |
| `KafkaDelivery.KafkaProducerWrapper.SendConfluent` | common/kafka_utils.py:192-268 | Produce, poll, and one retry after a full buffer, with reports served inside each poll; an exception from serialisation leaves after the attempt was counted |
| `KafkaDelivery.KafkaProducerWrapper.SendPython` | common/kafka_utils.py:170-190 | One call on the client; it enqueues or the failure is counted and handled |
| `KafkaDelivery.KafkaProducerWrapper.FailSend` | common/kafka_utils.py:246-267 | The except branches count one failure and hand the message to failure handling |
| `KafkaDelivery.KafkaProducerWrapper.HandleDeliveryFailure` | common/kafka_utils.py:422-551 | A message for the dead-letter topic is blocked; inside a Confluent callback only the fallback file is used; otherwise one dead-letter record is offered and, on Confluent, polled |
| `KafkaDelivery.KafkaProducerWrapper.FallBackInCallback` | common/kafka_utils.py:484-545 | Inside a callback a failed write is counted again and tried again |
| `KafkaDelivery.KafkaProducerWrapper.OfferToDlq` | common/kafka_utils.py:501-545 | One record is offered; when the client raises, the failure is counted and the fallback tried |
| `KafkaDelivery.KafkaProducerWrapper.FallBack` | common/kafka_utils.py:329-345 | One dead-letter failure is counted and one fallback write tried |
| `KafkaDelivery.KafkaProducerWrapper.OnAck` | common/kafka_utils.py:410-412 | An acknowledged message leaves pending and becomes a success; the clamp at zero does not take effect |
| `KafkaDelivery.KafkaProducerWrapper.CountNack` | common/kafka_utils.py:414-416 | A refused message leaves pending and becomes a failure; the clamp at zero does not take effect |
| `KafkaDelivery.KafkaProducerWrapper.OnNack` | common/kafka_utils.py:205-222 | A refused message is counted and handled inside its report, and the callback flag is down again afterwards |
| `KafkaDelivery.KafkaProducerWrapper.OnDlqReport` | common/kafka_utils.py:553-582 | A taken record is acknowledged without a count; a refused one is counted, and its line is written or its write fails |
| `KafkaDelivery.KafkaProducerWrapper.Poll` | common/kafka_utils.py:233-235 | A poll runs the reports that it delivers, in order |
| `KafkaDelivery.KafkaProducerWrapper.SendBadRow` | common/kafka_utils.py:292-397 | A bad row from the dead-letter topic or after close only reaches the file, any other is offered to the dead-letter topic |
| `KafkaDelivery.KafkaProducerWrapper.Flush` | common/kafka_utils.py:713-742 | Reports are served, and the timeout counter moves exactly when the client raised or something is left |
| `KafkaDelivery.KafkaProducerWrapper.Close` | common/kafka_utils.py:744-759 | The first close flushes, later ones change nothing |
| `SymbolConfigRoundTrip.RoundTrip` | common/symbol_config.py:41-101 | Every document of nested mappings, scalars, quoted scalars and lists, printed with any strictly deeper indentation, parses back to its tree |
| `SymbolConfigRoundTrip.DistinctEntries` | common/symbol_config.py:88-98 | With distinct keys the parsed mapping holds exactly the printed entries |
| `SymbolConfig.StackIsAncestorChain` | common/symbol_config.py:64-99 | At every line of every text the stack is the strictly deeper chain of open ancestors, each still in the tree |
| `SymbolConfig.StepSound` | common/symbol_config.py:67-99 | One line keeps the chain and never finds the stack empty |
| `SymbolConfig.IndentationErrorUnreachable` | common/symbol_config.py:70-71 | No text makes the parser raise the indentation error |
| `SymbolConfig.ErrorsExactly` | common/symbol_config.py:71-91 | Which lines are errors: an item outside a list, a line without a colon, a key outside a mapping |
| `SymbolConfig.ScalarExactly` | common/symbol_config.py:41-52 | A scalar is trimmed; in brackets it is a list of scalars, between equal quotes the text between them, and otherwise itself |
| `SymbolConfig.ParseSimpleYaml` | common/symbol_config.py:55-101 | The parser's loops compute the specification function on every text, errors included |
| `SymbolConfig.ParseItems` | common/symbol_config.py:64-99 | The loop over the lines computes the steps of the stack machine |
| `SymbolConfig.PopStack` | common/symbol_config.py:68-69 | Pops exactly the entries that are not less indented than the line |
| `SymbolConfig.CollectLines` | common/symbol_config.py:56-62 | The first loop keeps the non-blank lines with their indentation |
| `SymbolConfig.StripCommentLoop` | common/symbol_config.py:21-38 | The comment stripper with its fast path computes the part before the first unquoted '#', right-stripped |
| `SymbolConfig.Scan` | common/symbol_config.py:24-38 | The quote-aware loop keeps exactly the characters before the first unquoted '#' |
| `SymbolConfig.FastPath` | common/symbol_config.py:22-23 | Without a '#' the scan keeps the whole line, so the fast path agrees with it |
| `SymbolConfigComments.StripIdempotent` | common/symbol_config.py:21-38 | Stripping a stripped line changes nothing |
| `PyText.BlanksExactly` | common/symbol_config.py:41-62 | Which characters are blanks and which end a line, by code point |
| `SymbolConfigComments.TrailingComment` | common/symbol_config.py:21-38 | Blanks and a comment behind a line vanish exactly when the line leaves no quote open |
| `SymbolConfigComments.NoiseLine` | common/symbol_config.py:57-60 | Blank and comment-only lines contribute nothing |
| `SymbolConfigComments.CommentInsensitive` | common/symbol_config.py:55-101 | Blank lines, comment-only lines and trailing comments behind closed quotes, inserted anywhere, leave the parse result as it is |
| `QualityGate.ApplyQualityGate` | spark_jobs/quality_gate.py:299-318 | The reversed CASE fold gives the reason of the earliest TRUE condition, and the flag is the conjunction of the negations |
| `QualityGate.FlagMeaning` | spark_jobs/quality_gate.py:299-318 | The flag is FALSE exactly when some condition is TRUE, and TRUE exactly when all are FALSE |
| `QualityGate.FlagNull` | spark_jobs/quality_gate.py:285-318 | The flag is NULL exactly when no condition is TRUE and a status or a compared value is NULL |
| `QualityGate.ValidRowMeans` | spark_jobs/quality_gate.py:282-318 | A valid row parsed, has no NULL in a critical column, no negative and no inverted price |
| `QualityRules.ValidExactly` | spark_jobs/quality_gate.py:100-318 | For every hot topic, with the columns named: a row of its reader is valid exactly when it was parsed, has its symbol and time, its prices, quantities and counts are numbers and not negative, its quotes are in order, and it is on time |
| `QualityRules.FaultLabelled` | spark_jobs/quality_gate.py:282-318 | The first fault of a row, in the order of the gate, makes it invalid and gives its label; without one the row is not invalid and keeps its error |
| `QualityRules.TimeSources` | spark_jobs/quality_gate.py:260-297 | The lag is taken from `event_time_sec`, without that column from `event_time_ms`; without a time it is not bad |
| `QualityRules.NeededExactly` | spark_jobs/quality_gate.py:112-128 | Which columns of a hot topic must not be NULL |
| `QualityRules.SignedExactly` | spark_jobs/quality_gate.py:130-150 | Which columns of a hot topic must not be negative |
| `QualityRules.TruncateMeans` | spark_jobs/quality_gate.py:274-280 | The time in milliseconds is rounded towards zero |
| `QualityGate.CoveredNeverNull` | spark_jobs/quality_gate.py:112-150 | When every compared column is critical the flag is never NULL |
| `QualityGate.PartitionIffCovered` | spark_jobs/quality_gate.py:112-150 | For any topic and columns: no row falls between the two filters exactly when every compared column is critical |
| `QualityGate.HotTopicsCovered` | spark_jobs/quality_gate.py:100-150 | Of the hot topics exactly `rollup-trade-cvd-1s` and `rollup-bookticker-1s` are not covered |
| `QualityGate.RollupRowInNeither` | spark_jobs/quality_gate.py:130-150 | On the rollup topics one NULL non-critical number puts an otherwise clean row in neither half |
| `QualityGate.OrAll` | spark_jobs/quality_gate.py:203-209 | TRUE as soon as one operand is, NULL only without a TRUE |
| `QualityGate.AndAll` | spark_jobs/quality_gate.py:194-200 | FALSE as soon as one operand is, NULL only without a FALSE |
| `QualityGate.FirstTrue` | spark_jobs/quality_gate.py:309-315 | The position of the earliest TRUE condition |
| `QualityBatch.ThreeWaySplit` | spark_jobs/quality_gate.py:321-330 | Any batch is the valid rows, the invalid rows and the undecided rows, as multisets |
| `QualityBatch.UndecidedRows` | spark_jobs/quality_gate.py:321-330 | The undecided rows are those whose flag is NULL |
| `QualityBatch.FiltersExactly` | spark_jobs/quality_gate.py:321-330 | The two filters keep exactly the rows whose flag is TRUE, and FALSE |
| `QualityBatch.SummaryOfOne` | spark_jobs/quality_gate.py:366-400 | What one row adds to each count of the quality event |
| `QualityBatch.SummaryAppend` | spark_jobs/quality_gate.py:366-400 | The counts of two batches together are the sums of their counts |
| `QualityBatch.CoveredBatchPartition` | spark_jobs/quality_gate.py:321-330 | On a covered topic the valid and the invalid rows partition any batch |
| `QualityBatch.OneReason` | spark_jobs/quality_gate.py:299-315 | A dropped row carries exactly one of the five reasons, any other row none |
| `QualityBatch.DroppedByReason` | spark_jobs/quality_gate.py:366-400 | The dropped rows of a batch are the parse errors plus the rows of each of the four labels |
| `QualityBatch.SummaryAgrees` | spark_jobs/quality_gate.py:366-400 | parse errors + null criticals ≤ dropped = number of invalid rows, and on a covered topic input = valid + dropped |
| `ChWriter.ClickHouseWriter.WriteToClickHouse` | spark_jobs/ch_writer.py:601-805 | States exactly when the callback returns, and never on an exception whose kind starts with "spark_", which leaves no dead-letter file; when it returns the batch was empty, or inserted, or its dead-letter files are complete and still there |
| `ChWriter.FailureReturnsExactly` | spark_jobs/ch_writer.py:688-805 | A failed batch lets the checkpoint advance exactly when the exception is not Spark's, its audit event and its files are written, strict retry is off, and fail-fast does not apply to its kind and the number of failures |
| `ChWriter.SuccessReturns` | spark_jobs/ch_writer.py:628-686 | A batch without an exception returns, and was empty or inserted |
| `ChWriter.FailFastFromNth` | spark_jobs/ch_writer.py:847-866 | With fail-fast on for every type, a failed batch raises exactly from the configured number of failures on since the table was last written |
| `ChWriter.ConsecutiveIsStreak` | spark_jobs/ch_writer.py:847-858 | The failure count is the number of failures after the last write of the table in the history |
| `ChWriter.CountAfter` | spark_jobs/ch_writer.py:601-858 | A raising attempt adds one to its table's count, a written batch resets it, an empty one and other tables leave it alone |
| `ChWriter.AuditExactly` | spark_jobs/ch_writer.py:628-708 | Which audit events an attempt emits and in which order; rows are inserted exactly when the started event was emitted and the insert did not raise |
| `ChWriter.ClickHouseWriter.TryInsert` | spark_jobs/ch_writer.py:628-686 | The try block: which exception leaves it, which events it emits, whether it inserts |
| `ChWriter.ClickHouseWriter.HandleFailure` | spark_jobs/ch_writer.py:688-805 | The except block: operational errors, incomplete dead-letter files, strict retry and fail-fast raise, everything else returns |
| `ChWriter.ClickHouseWriter.WriteDlqFiles` | spark_jobs/ch_writer.py:726-791 | `dlq_persisted` is assigned exactly when directory, metadata and data were written; a write that raises touches no other file, and the cleanup that follows leaves the new files alone when they are out of its reach |
| `ChWriter.ClickHouseWriter.CleanupOldDlqFiles` | spark_jobs/ch_writer.py:136-181 | Unless a stat raises, exactly the files go that are past the age limit or, when none of those went with its data, the oldest ones beyond the limit, but for those whose removal raises; a file within both limits always stays |
| `ChWriter.ProtectedExactly` | spark_jobs/ch_writer.py:151-171 | A file is out of reach of the cleanup exactly when it is within the age limit and fewer than the maximum minus one files are newer |
| `ChWriter.StrictModeReturns` | spark_jobs/ch_writer.py:869-872 | With raise-after-dead-letter enabled only an empty or an inserted batch returns |
| `ChWriter.ReadConfig` | spark_jobs/ch_writer.py:57-69 | The settings are those of the environment, each with its least value |
| `ChWriter.ClickHouseWriter.RecordFailure` | spark_jobs/ch_writer.py:847-851 | The count is the number of failures of the table since its last success |
| `ChWriter.ClickHouseWriter.ResetFailureCount` | spark_jobs/ch_writer.py:854-858 | A success resets the table's count |
| `BatchLedger.RetryTraces` | spark_jobs/batch_ledger_contract.py:131-174 | Attempts that reach the insert with the same rows in some order or fail before there is a frame: with a checksum that ignores the order, their audit trace is free of conflicts exactly when the two kinds do not mix |
| `BatchLedger.TraceActions` | spark_jobs/batch_ledger_contract.py:131-174 | In the trace of retries that reach the insert the two statuses alone decide the action, and a retry after a success is the only issue noted |
| `BatchLedger.ConflictsExactly` | spark_jobs/batch_ledger_contract.py:131-174 | Rows under one key conflict exactly when both have checksums that differ, the row counts differ, or a batch skipped as empty gets another status |
| `BatchLedger.EventsConflictExactly` | spark_jobs/batch_ledger_contract.py:105-174 | For two events of one batch the checksums are compared exactly when both saw rows, the row counts always |
| `BatchLedger.WriterChecksumInsensitive` | spark_jobs/ch_writer.py:509-524 | The checksum that the writer computes ignores the order of the rows |
| `BatchLedger.MixedConflict` | spark_jobs/ch_writer.py:688-708 | An event from before the frame against any event of the frame is a row-count conflict, in either order |
| `BatchLedger.SameFrameNoConflict` | spark_jobs/batch_ledger_contract.py:131-174 | Two events of one batch computed from the same rows, in any order, never conflict, unless the first saw it empty |
| `BatchLedger.KeysSeparateBatches` | spark_jobs/batch_ledger_contract.py:55-102 | With an injective key hash, rows of two batches are rejected for their key exactly when a checkpoint is known for one of them and the identities differ |
| `BatchChecksum.ChecksumOrderInsensitive` | spark_jobs/ch_writer.py:509-524 | The checksum does not depend on the order of rows, of columns, or on the sort |
| `BatchChecksum.ChecksumIsSum` | spark_jobs/ch_writer.py:521-523 | The checksum is the mathematical sum of the row hashes modulo 2^64 |
| `BatchChecksum.ChecksumAdditive` | spark_jobs/ch_writer.py:509-524 | For non-empty batches with the same columns the checksum of both is the sum of the checksums modulo 2^64 |
| `BatchChecksum.WrappingIsMath` | spark_jobs/ch_writer.py:522-523 | Wrapping at every addition is wrapping once at the end |
| `BatchChecksum.SelectedPermuted` | spark_jobs/ch_writer.py:514-516 | Permuted columns select the same columns in the same order |
| `BatchChecksum.SelectedExactly` | spark_jobs/ch_writer.py:514-516 | The checksum covers those of sixteen named columns that the frame has, and all columns, sorted, when it has none of them |
| `BatchChecksum.RowsAlikeExactly` | spark_jobs/ch_writer.py:517-521 | Two rows are hashed alike exactly when their selected cells have the same text, NULL reading as "<NA>" |
| `BatchChecksum.SortSorted` | spark_jobs/ch_writer.py:515-516 | The fallback column order is sorted |
| `BatchChecksum.SortedUnique` | spark_jobs/ch_writer.py:515-516 | There is only one sorted order of given columns |
| `Cvd.MartOfStream` | dbt/models/marts/market/market_insights_10s.sql:3-17 | Trades in any micro-batches, 5-second rows upserted into a table, rows summed at 10 seconds: the sums are those of aggregating the raw trades at 10 seconds |
| `Cvd.MartRowHolds` | dbt/models/marts/market/market_insights_10s.sql:3-17 | Over that path a row of the mart is there exactly when its symbol traded in the ten seconds from its start, in milliseconds, and every summed column is the sum over exactly those trades |
| `Cvd.RowHolds` | spark_jobs/silver/cvd.py:55-155 | The same of a 5-second row: taker volumes and counts by market and side, whale columns by value against the threshold of the symbol, and the deltas |
| `Cvd.WindowExactly` | spark_jobs/silver/cvd.py:103-107 | A trade falls into a window exactly when the start is a multiple of the width and its event time lies in the milliseconds of the window |
| `Cvd.ShareRow` | spark_jobs/silver/cvd.py:103-107 | Two trades share a 5-second row exactly when they share the symbol and the five seconds |
| `Cvd.RollupKeyExactly` | spark_jobs/kafka_reader.py:267-300 | A trade belongs to the rollup message of its symbol, market and second |
| `Cvd.SumsOfGroup` | spark_jobs/silver/cvd.py:55-118 | Each column of a group is the sum over the trades that it is meant for |
| `Cvd.MicroBatchesAgree` | spark_jobs/silver/cvd.py:103-118 | However the input is cut into micro-batches, the upserted table holds the groups of the whole input |
| `Cvd.TenSecondMart` | dbt/models/marts/market/market_insights_10s.sql:47-54 | The mart's summed columns over the 5-second rows, in any order, equal the one-stage aggregation |
| `Cvd.BucketsNest` | dbt/models/marts/market/market_insights_10s.sql:47-54 | A 10-second bucket contains whole 5-second windows |
| `Cvd.TwoStages` | spark_jobs/silver/cvd.py:107-118 | Grouping the rows of a table by a coarser key is grouping the input by the coarser key |
| `Cvd.GroupIsSum` | spark_jobs/silver/cvd.py:107-118 | A group exists exactly when it has an element, and holds the sum over its elements |
| `Cvd.RollupsAgree` | spark_jobs/silver/cvd.py:120-137 | Per-second, per-market rollup messages aggregate to the same rows as the raw trades |
| `Cvd.RollupIsSum` | spark_jobs/kafka_reader.py:267-300 | A parsed rollup message holds the sum of what its trades contribute |
| `Cvd.DeltasAdd` | spark_jobs/silver/cvd.py:139-155 | Summing the delta columns is the delta of the sums |
| `Cvd.TakerVolumes` | spark_jobs/silver/cvd.py:55-118 | In every group the four taker volumes add up to the traded quantity less that of trades without a maker flag, the trade counts to the number of trades, and the whale columns never exceed the taker columns |
| `RowHashPolicy.CanonicalForm` | spark_jobs/row_hash_policy.py:204-217 | Two decimals print the same text exactly when their roundings to 12 places are equal |
| `RowHashPolicy.ReadBack` | spark_jobs/row_hash_policy.py:204-217 | Reading the printed text gives the rounding |
| `RowHashPolicy.RoundingError` | spark_jobs/row_hash_policy.py:213 | The rounding is off by at most half a unit of the twelfth place, ties away from zero |
| `RowHashPolicy.PrintIdempotent` | spark_jobs/row_hash_policy.py:204-217 | Printing what was printed changes nothing |
| `RowHashPolicy.PrintedShape` | spark_jobs/row_hash_policy.py:214-217 | No "-0", no trailing fractional zero, no trailing point |
| `RowHashPolicy.PrintedSign` | spark_jobs/row_hash_policy.py:204-217 | The text has a minus sign exactly when the number is negative and does not round to zero |
| `RowHashPolicy.RaisesExactlyWhenTooLong` | spark_jobs/row_hash_policy.py:213 | Normalising raises exactly when the rounded number needs more than 28 digits |
| `RowHashPolicy.SameCellSameText` | spark_jobs/row_hash_policy.py:220-228 | Two cells of a column normalise to the same text exactly when both are NULL, or equal text, or equal roundings, or one is NULL and the other the sentinel text |
| `RowHashPolicy.SameHashExactly` | spark_jobs/row_hash_policy.py:239-268 | Two rows of a table hash the same text exactly when they have the same optional columns and every pair of cells is the same, or NULL against the sentinel text |
| `RowHashPolicy.ShadowHashesAlike` | spark_jobs/row_hash_policy.py:152-160 | A stream table and its shadow table hash every row alike |
| `RowHashPolicy.CanonicalExactly` | spark_jobs/row_hash_policy.py:152-160 | A table is known by its trimmed name, or as the stream table of a known shadow table |
| `RowHashPolicy.HashedColumns` | spark_jobs/row_hash_policy.py:246-254 | Fails exactly when a required column is missing; otherwise hashes the required and the present optional columns |
| `RowHashPolicy.SentinelCollides` | spark_jobs/row_hash_policy.py:17-17 | In a text column the sentinel text and NULL hash alike |
| `PartitionRouting.NormalizeSymbols` | common/symbol_config.py:117-132 | Rejects what is no list; accepts exactly the non-empty lists whose trimmed upper-cased entries are non-empty and distinct; otherwise the error is that of the first offending entry |
| `PartitionRouting.NormalizedAreDistinct` | common/symbol_config.py:117-132 | Symbols that were accepted are in upper case and distinct, as the results on spans ask for |
| `PartitionRouting.PartitionCounts` | common/config.py:170-186 | The six high-frequency topics have the configured hot partitions, all others the default, each at least one; a topic is routed exactly when it is one of the six and has at least two |
| `PartitionRouting.SpansTile` | common/config.py:178-204 | With at least as many partitions as symbols the spans are non-empty, consecutive, start at 0, end at P and differ in size by at most one |
| `PartitionRouting.EveryPartitionOwned` | common/config.py:178-204 | Every partition lies in exactly one configured symbol's span |
| `PartitionRouting.FallbackBalanced` | common/config.py:196-198 | With fewer partitions than symbols every partition serves the rounded-down or rounded-up share |
| `PartitionRouting.RouteInSpan` | common/config.py:292-332 | For every symbol, seed, hash and override the partition lies in the symbol's span and shard < active lanes ≤ span size |
| `PartitionRouting.RouteExactly` | common/config.py:273-332 | On a hot topic the shard is the hash modulo the active lanes and the partition that many behind the start of the span; elsewhere the symbol is the key |
| `PartitionRouting.EveryLaneReached` | common/config.py:318-322 | Every active lane is reached by some hash |
| `PartitionRouting.LanesFollowOverrides` | common/config.py:241-255 | The override for topic and symbol counts first, then for the topic, the symbol, and everything, cut to the span; without one all lanes are active |
| `PartitionRouting.SeedsTellApart` | common/config.py:263-290 | Two seeds for a topic and symbol are equal exactly when the values in them are |
| `PartitionRouting.SeedValue` | common/config.py:263-290 | The value in the seed is the first filled identifying field of the kind of topic, or what stands in for it |
| `PartitionRouting.EndsWithMeans` | common/config.py:274-290 | The kind of a topic is its suffix |
| `PartitionRouting.IntTextMeans` | common/config.py:275-290 | A time in a seed reads back as itself |
| `PartitionRouting.SymbolsNeverShare` | common/config.py:292-332 | Two configured symbols never share a partition |
| `PartitionRouting.KeyDeterminesPartition` | common/config.py:318-332 | For a fixed topic the message key determines the partition, even across changed lane overrides |
| `PartitionRouting.SameEventSameRoute` | common/config.py:263-332 | An event sent again with the same identifying field takes the same route, whatever its time, prices and capitalisation of the symbol |
| `PartitionRouting.LaneKeyInjective` | common/config.py:325-326 | A lane key splits into symbol and shard in one way |
| `PartitionRouting.ActiveLanes` | common/config.py:241-255 | At least one lane and never more than the span has |
| `PyDigits.NumberOfDigits` | common/config.py:325-326 | A printed number reads back as itself |
| `PriceCache.PriceInsight.UpdateRollupBt` | spark_jobs/silver/price.py:152-183 | The loop overwrites the books row by row, skipping incomplete rows |
| `PriceCache.PriceInsight.UpdateRawBt` | spark_jobs/silver/price.py:100-150 | A raw batch refreshes one book from the per-column latest values of each symbol, NULL among them |
| `PriceCache.BatchKeepsNewest` | spark_jobs/silver/price.py:152-183 | After a rollup batch every touched entry is a whole row with the batch's greatest event time |
| `PriceCache.BatchKeepsOthers` | spark_jobs/silver/price.py:152-183 | Untouched entries are as they were |
| `PriceCache.LatestIsLastRow` | spark_jobs/silver/price.py:108-126 | A symbol whose last row is complete gets that row |
| `PriceCache.WholeRowExactly` | spark_jobs/silver/price.py:108-126 | For a given placement of NULLs the entry of a symbol is a whole row, whatever the values, exactly when bid, ask and time are last filled in the same row |
| `PriceCache.KnownExactly` | spark_jobs/silver/price.py:108-121 | A column is known exactly when some row of the symbol fills it; without one the symbol is skipped |
| `PriceRuns.RawStepExactly` | spark_jobs/silver/price.py:100-150 | A raw batch changes entries of its own market alone, to the latest values of symbols that have all three, and leaves the others |
| `PriceRuns.RollupStepExactly` | spark_jobs/silver/price.py:152-183 | A rollup batch changes the entries that it has complete rows for to the newest of them, and no others |
| `PriceRuns.RawEntryIsLastRow` | spark_jobs/silver/price.py:108-126 | Outside observe mode every entry that a raw batch writes is the last row of its symbol |
| `PriceRuns.MixedQuote` | spark_jobs/silver/price.py:108-126 | In observe mode two rows that are delivered give an entry put together from both, inverted although neither row is |
| `PriceRuns.EntryFromLastTouch` | spark_jobs/silver/price.py:152-183 | Over any run of rollup batches an entry is the newest quote of the last batch that touched it |
| `PriceRuns.EntryIsNewestOfRun` | spark_jobs/silver/price.py:152-183 | It is the newest of the whole run exactly when that batch holds the newest |
| `PriceRuns.EntryMayGoBack` | spark_jobs/silver/price.py:152-183 | Two batches that the gate passes, the second with an older quote, take an entry back in time |
| `PriceRuns.GatePassesQuotable` | spark_jobs/silver/base.py:76-81 | Rows that pass the gate outside observe mode have prices with 0 ≤ bid ≤ ask |
| `PriceRuns.BooksStayQuotable` | spark_jobs/silver/price.py:100-183 | Outside observe mode both books hold only such snapshots in every reachable state |
| `PriceRuns.PriceRowsSound` | spark_jobs/silver/price.py:262-290 | Outside observe mode every price row has ordered quotes, spreads of at least zero, and a basis with the sign of the difference of the mids |
| `PriceRuns.QuotesAreFresh` | spark_jobs/silver/price.py:191-217 | Whatever the books hold, a non-zero quote is at most the stale limit old, and the basis is zero unless both books are fresh and the spot mid is not zero |
| `PriceRuns.QuotesExactly` | spark_jobs/silver/price.py:191-217 | Bid, ask and spread are those of the entry when it has a time and is at most the stale limit old, and zero otherwise |
| `PriceRuns.BasisExactly` | spark_jobs/silver/price.py:276-290 | The basis is the distance of the mids in percent of the spot mid when both entries are current and the spot mid is not zero, and zero otherwise |
| `PriceRuns.ObserveModeInverts` | spark_jobs/silver/base.py:79-80 | In observe mode an inverted quote passes and gives a negative spread |
| `PriceRuns.SpreadsHoldExactly` | spark_jobs/silver/price.py:262-290 | No run delivered in a mode gives a negative spread, exactly when the mode is not observe |
| `TopicContracts.ContractLoader.Resolve` | common/topic_contracts.py:19-36 | The memoised resolution of a topic equals plain recursive inheritance, keeps the memo correct and terminates on acyclic contracts |
| `TopicContracts.ContractLoader.Load` | common/topic_contracts.py:14-38 | Loading gives every topic its inherited contract, and fails exactly when some topic names a missing parent |
| `TopicContracts.ParentExactly` | common/topic_contracts.py:19-25 | A contract extends the topic that it names with a non-empty text; a false value names none and any other value cannot be resolved |
| `TopicContracts.MergeInto` | common/topic_contracts.py:26-32 | The merge loop overrides the parent's keys and merges nested objects |
| `TopicContracts.MergeAt` | common/topic_contracts.py:24-33 | A merged contract has the keys of both; a child value overrides, an object is merged into an inherited object, and the other inherited values stay |
| `TopicContracts.InheritsKeys` | common/topic_contracts.py:19-36 | A topic has exactly the keys that it or an ancestor defines |
| `TopicContracts.NearestValue` | common/topic_contracts.py:19-36 | A plain value comes from the nearest topic that defines the key |
| `TopicContracts.NearestEntry` | common/topic_contracts.py:28-29 | An entry of a nested object comes from the nearest topic that defines it |
| `ContractValidation.AcceptedExactly` | common/collector_schema.py:142-205 | An event is accepted exactly when its times are read without exception, the event time found is at most 60 s ahead, its fields are there and typed without exception, and every quality rule accepts |
| `ContractValidation.RejectionIsReal` | common/collector_schema.py:142-205 | Every rejection names a requirement or rule that the payload breaks |
| `ContractValidation.RulesAccept` | common/collector_schema.py:178-204 | The rule loop accepts exactly when every rule holds |
| `ContractValidation.RuleAccepts` | common/collector_schema.py:178-204 | A rule accepts exactly when its fields convert and are positive, in order, or not all negative, where NaN passes each comparison; including the early stop of `all` on the first value that is not negative |
| `ContractValidation.FieldsPassExactly` | common/collector_schema.py:142-176 | The checks before the rules pass exactly when each requirement holds; a value whose conversion raises, as a time, a number or an integer, never passes |
| `ContractValidation.TypesExactly` | common/collector_schema.py:26-43 | A type check lets through what is blank and what converts; booleans and containers do not, and a number out of range raises |
| `ContractValidation.FloatsExactly` | common/collector_schema.py:178-204 | What the rules convert, and to which number |
| `ContractValidation.NumbersAsTimes` | common/collector_schema.py:46-70 | A number is a time by its whole part: seconds below ten digits, milliseconds from there on, and none from zero down |
| `ContractValidation.TextsAsTimes` | common/collector_schema.py:51-70 | A text of digits and at most one point is a time by its number and raises without a finite one; other texts are left to the date reader |
| `ContractValidation.InferExactly` | common/collector_schema.py:77-94 | The event time is that of the first key that holds one |
| `ContractValidation.NamedTimes` | common/collector_schema.py:77-94 | A contract without event time fields takes the time from any of nine names and from no other |
| `ContractTotality.TotalExactly` | common/collector_schema.py:142-205 | Validation reaches a verdict on every payload without infinities, NaN and integers beyond the float range exactly when Python reads every text as a time or as no time, and the rules only convert fields that the contract vouches for (or no payload can satisfy the contract) |
| `ContractTotality.GuardedRaisesExactly` | common/collector_schema.py:26-205 | On a guarded contract validation raises exactly when some check or rule converts a value that raises (a time that cannot be read, an infinity or NaN as a time, an infinity as an integer, an integer beyond the float range) and every check before it passes |
| `ContractTotality.RaisesExactly` | common/collector_schema.py:26-205 | On every contract validation raises exactly when some check or rule makes a conversion that raises, or a rule lacks a field, and every check before it passes |
| `ContractTotality.GuardedIsTotal` | common/collector_schema.py:142-205 | On a guarded contract a payload in which no value raises as a time and no integer is beyond the float range gets a verdict |
| `ContractTotality.RaisingTime` | common/collector_schema.py:77-103 | A value whose reading as a time raises, in the first event time field, stops every contract |
| `ContractTotality.InfinityRaises` | common/collector_schema.py:49-50 | Infinity in the first event time field stops every contract, so none is total |
| `ContractTotality.OversizePriceRaises` | common/collector_schema.py:26-34 | A trade whose price is an integer beyond the float range raises |
| `ContractTotality.NaNPriceAccepted` | common/collector_schema.py:182-184 | A trade whose price is NaN is accepted |
| `ContractTotality.SuperscriptTradeRaises` | common/collector_schema.py:51-56 | The trade {"p": "1", "q": "1", "T": "²"} raises, given that "²" is a digit text that `float` rejects |
| `ContractTotality.TypedButAbsent` | common/collector_schema.py:167-183 | A typed but optional price that is absent reaches `float(None)` |
| `ContractTotality.ShippedContractsGuarded` | config/topic_contracts.json:3-64 | In all contracts of the repository the rules only convert fields that the contract vouches for |
| `ContractTotality.ShippedContractsSeparable` | config/topic_contracts.json:3-64 | All contracts of the repository meet the side condition of the exact theorem |
| `ContractTotality.ShippedTotalExactly` | common/collector_schema.py:46-70 | The contracts of the repository give every payload without infinities, NaN and integers beyond the float range a verdict exactly when every text can be read as a time or as no time, which "²" cannot |
| `ContractTotality.ShippedRaisesExactly` | common/collector_schema.py:26-205 | On the contracts of the repository validation raises exactly when some check before the rules makes a conversion that raises and those before it pass; the rules never raise |
| `ContractGate.AcceptedBookTicker` | spark_jobs/quality_gate.py:282-318 | An accepted book ticker is never labelled null, negative or inverted: the gate passes it exactly when it is within the lag limits |
| `ContractGate.AcceptedPrices` | common/collector_schema.py:178-199 | The prices of an accepted book ticker convert, and 0 < bid ≤ ask exactly when neither is NaN |
| `RestBackoff.RestBackoffState.RecordSuccess` | collectors/rest_poller.py:150-153 | Count and backoff go back to zero |
| `RestBackoff.RestBackoffState.RecordFailure` | collectors/rest_poller.py:176-217 | The count goes up by one and the computed delay is kept and returned |
| `RestBackoff.CountsSinceSuccess` | collectors/rest_poller.py:150-195 | Over any run the count is the number of failures since the last success |
| `RestBackoff.DelayWithinCap` | collectors/rest_poller.py:103-132 | Over any run every delay lies between zero and the cap |
| `RestBackoff.DelayExactly` | collectors/rest_poller.py:103-132 | The delay is what the kind of failure asks for (Retry-After with 429, the ban time for 418 and 403, otherwise the base doubled per failure), moved by at most the jitter ratio and cut to the cap |
| `RestBackoff.GrowingExactly` | collectors/rest_poller.py:95-132 | Successive ordinary failures never shorten the delay, whatever the draws, exactly when the jitter ratio is at most a third or the cap is reached by the second failure |
| `RestBackoff.DelaysGrowOverRun` | collectors/rest_poller.py:176-195 | Over a run with such a configuration the delays between successes never decrease |
| `RestBackoff.PlateauExactly` | collectors/rest_poller.py:125-132 | From the k-th failure on the delay is the cap exactly when base·2^(k−1)·(1−ratio) has reached it |
| `RestBackoff.WaitsAsTold` | collectors/rest_poller.py:119-123 | Retry-After and ban delays are kept but for jitter and cap, whatever the failure count |
| `RestBackoff.JitterBounds` | collectors/rest_poller.py:95-100 | The jittered delay stays between (1−ratio) and (1+ratio) times the delay, short of the upper end |

## Left out

- KafkaDelivery.KafkaProducerWrapper.OfferToDlq: a dead-letter record that cannot be built or serialised is folded into a client call that raises.
- KafkaDelivery.KafkaProducerWrapper.SendConfluent: `poll` itself is taken not to raise.
- QualityGate.PartitionIffCovered: takes both lag limits as not negative.
- ChWriter.ClickHouseWriter.WriteToClickHouse: the listing of the dead-letter directory is given, sorted; files that other processes add or remove are left out.
- ChWriter.ClickHouseWriter.WriteDlqFiles: a file whose write raises is known to be incomplete; its exact text is not modelled beyond the data lines written so far.
- BatchLedger.RetryTraces: attempts whose own audit of the failure raises, or whose timestamp restoration raises, are not part of the two kinds.
- PartitionRouting.RouteInSpan: `str.upper` is any function that leaves upper-cased text alone; reading lane overrides from the environment is left out, any table of overrides is allowed.
- PartitionRouting.SpansTile: about configured symbols only; the span of an unconfigured symbol may overlap others.
- RowHashPolicy.CanonicalForm: finite decimals within 28 digits; NaN, infinities and exponent limits are left out.
- RowHashPolicy.SameHashExactly: the JSON text and SHA-256 are taken as injective; timestamps are text.
- Cvd.MartOfStream: quantities are reals, counts unbounded; the `int` and `UInt32` casts, dropped late rows, and the joins of the 5-second view are left out, and an emitted row replaces the row with its key.
- Cvd.RollupsAgree: what the rollup producer sums is taken from the columns that `aggregate_rollup` adds up; the producer is not part of this model.
- PriceRuns.EntryFromLastTouch: about runs of rollup batches; raw batches have no order that Spark guarantees.
- TopicContracts.ContractLoader.Resolve: asks for acyclic `extends`; a cycle exhausts the Python stack. Contracts are taken as JSON objects.
- ContractTotality.TotalExactly: for contracts in which every field of a `non_negative_any` rule but its last can be left out, or can be negative without another rule, a time field or a time type noticing; all shipped contracts are such (`ShippedContractsSeparable`). `RaisesExactly` and `GuardedRaisesExactly` do not need this.
- ContractTotality.ShippedContractsGuarded: the shipped contracts are written out after inheritance, as records.
- ContractValidation.AcceptedExactly: the rounding of integers to doubles and the names of error types are left out; how a text reads as a number or a date, which characters are digits, and which integers are within the float range, are parameters.
- ContractGate.AcceptedBookTicker: Spark's cast is assumed to read the same number as Python, which holds for plain decimal numerals, and that number to be finite.
- RestBackoff.DelayWithinCap: reals; the overflow of `2 ** n` past about 1024 failures is left out.
- The parser's containers are named by key path instead of shared references; loading through PyYAML is left out.
- Interleaving of threads inside one wrapper method: calls and callbacks are atomic.
- `send_batch`, error classification, masking, metrics, logging, environment parsing: easy members.
- Validation of topics without a contract, WebSocket and HTTP loops, Airflow, Docker, dbt staging.
- The client cache and the periodic health check of the ClickHouse writer.
