/**
  The shadow batch ledger: audit events become ledger rows, and an incoming row is classified
  against an existing one.
*/
module BatchLedger {
  import opened PyText
  import opened ChWriter
  import BatchChecksum

  /** What identifies a batch; the checkpoint path is already sanitised, and may be missing. */
  datatype BatchId = BatchId(job: string, table: string, checkpoint: Option<string>, batch: int)

  /** The hash of the canonical key payload. */
  type KeyHash = (string, string, string, int) -> string

  datatype LedgerRow = LedgerRow(key: Option<string>, status: Status, rowCount: nat, checksum: Option<string>)

  datatype Issue = ChecksumMismatch | RowCountMismatch | RetryAfterSuccess | SkippedEmptyChanged | KeyMismatch

  datatype Action =
    | InsertNew | RejectKeyMismatch | QuarantineConflict | DuplicateTerminal | DuplicateInProgress
    | AdvanceStatus | RecordRetry | KeepSuccessMarkRetry | RecordObservation

  datatype Verdict = Verdict(action: Action, issues: seq<Issue>)

  /** The key of a batch; `build_ledger_key` strips its text fields, and without a checkpoint path there is none. */
  function LedgerKey(id: BatchId, hash: KeyHash): Option<string> {
    if id.checkpoint.Some? && Strip(id.checkpoint.value) != [] then
      Some(hash(Strip(id.job), Strip(id.table), Strip(id.checkpoint.value), id.batch))
    else None
  }

  /** `audit_event_to_ledger_row`, for an event with the required fields. */
  function ToLedgerRow<Row>(id: BatchId, e: Event<Row>, hash: KeyHash, checksum: seq<Row> -> string): LedgerRow {
    var rows := if e.pdf.Some? then e.pdf.value else [];
    LedgerRow(LedgerKey(id, hash), e.status, |rows|, if rows == [] then None else Some(checksum(rows)))
  }

  predicate Truthy(text: Option<string>) {
    text.Some? && text.value != []
  }

  /** `classify_ledger_observation`. */
  function Classify(existing: Option<LedgerRow>, incoming: LedgerRow): Verdict {
    match existing
    case None => Verdict(InsertNew, [])
    case Some(earlier) =>
      if earlier.key != incoming.key then Verdict(RejectKeyMismatch, [KeyMismatch])
      else
        var issues :=
          (if Truthy(earlier.checksum) && Truthy(incoming.checksum) && earlier.checksum != incoming.checksum
           then [ChecksumMismatch] else [])
          + (if earlier.rowCount != incoming.rowCount then [RowCountMismatch] else []);
        if issues != [] then Verdict(QuarantineConflict, issues)
        else if earlier.status == incoming.status then
          Verdict(if incoming.status.Started? then DuplicateInProgress else DuplicateTerminal, [])
        else if earlier.status.Started? then Verdict(AdvanceStatus, [])
        else if earlier.status.Failed? && incoming.status.Started? then Verdict(RecordRetry, [])
        else if earlier.status.Success? && (incoming.status.Started? || incoming.status.Failed?) then
          Verdict(KeepSuccessMarkRetry, [RetryAfterSuccess])
        else if earlier.status.SkippedEmpty? then Verdict(QuarantineConflict, [SkippedEmptyChanged])
        else Verdict(RecordObservation, [])
  }

  predicate Conflict(v: Verdict) {
    v.action == QuarantineConflict || v.action == RejectKeyMismatch
  }

  // ------------------------------------------------------------------ the trace of a batch

  /** The audit events of the attempts at one batch, in order. */
  function Trace<Row>(attempts: seq<Env<Row>>): seq<Event<Row>> {
    if attempts == [] then [] else EventsOf(attempts[0]) + Trace(attempts[1..])
  }

  /** No later event of the trace conflicts with an earlier one. */
  ghost predicate ConflictFree<Row>(id: BatchId, events: seq<Event<Row>>, hash: KeyHash, checksum: seq<Row> -> string) {
    forall i, j | 0 <= i < j < |events| ::
      !Conflict(Classify(Some(ToLedgerRow(id, events[i], hash, checksum)), ToLedgerRow(id, events[j], hash, checksum)))
  }

  /** The attempt gets as far as the insert call, with these rows in some order. */
  predicate ReachesInsert<Row(==)>(env: Env<Row>, rows: multiset<Row>) {
    && env.collected.Frame? && env.collected.rows != [] && multiset(env.collected.rows) == rows
    && env.startedAudit.None? && env.failedAudit.None?
  }

  /** The checksum does not depend on the order of the rows. */
  ghost predicate OrderInsensitive<Row(!new)>(checksum: seq<Row> -> string) {
    forall a, b | multiset(a) == multiset(b) :: checksum(a) == checksum(b)
  }

  /** The checksum of a batch as text; a frame without columns has none. */
  function ChecksumText(columns: seq<string>, order: seq<seq<string>> -> seq<seq<string>>,
                        hash: BatchChecksum.RowHash, text: nat -> string): seq<map<string, Option<string>>> -> string
  {
    rows =>
      match BatchChecksum.Checksum(BatchChecksum.Frame(columns, rows), order, hash)
      case None => ""
      case Some(sum) => text(sum)
  }

  /** The checksum that the writer computes is such. */
  lemma WriterChecksumInsensitive(columns: seq<string>, order: seq<seq<string>> -> seq<seq<string>>,
                                  hash: BatchChecksum.RowHash, text: nat -> string)
    requires BatchChecksum.Permutes(order)
    ensures OrderInsensitive(ChecksumText(columns, order, hash, text))
  {
    hide BatchChecksum.Checksum, BatchChecksum.Permutes;
    forall a: seq<map<string, Option<string>>>, b | multiset(a) == multiset(b)
      ensures ChecksumText(columns, order, hash, text)(a) == ChecksumText(columns, order, hash, text)(b)
    {
      BatchChecksum.ChecksumOrderInsensitive(BatchChecksum.Frame(columns, a), BatchChecksum.Frame(columns, b),
                                             order, order, hash);
    }
  }

  /** The two frames hold the same rows, or neither event has one. */
  ghost predicate SameRows<Row>(a: Event<Row>, b: Event<Row>) {
    if a.pdf.Some? && b.pdf.Some? then multiset(a.pdf.value) == multiset(b.pdf.value) else a.pdf == b.pdf
  }

  /** The attempt fails before there is a frame. */
  predicate FailsBeforeFrame<Row>(env: Env<Row>) {
    env.collected.CollectRaises? && env.failedAudit.None?
  }

  /** Every event of a trace comes from an attempt ... */
  lemma {:induction false} TraceOrigin<Row>(attempts: seq<Env<Row>>, e: Event<Row>) returns (env: Env<Row>)
    requires e in Trace(attempts)
    ensures env in attempts && e in EventsOf(env)
  {
    if e in EventsOf(attempts[0]) {
      env := attempts[0];
    } else {
      env := TraceOrigin(attempts[1..], e);
    }
  }

  /** ... and every event of an attempt is in the trace. */
  lemma {:induction false} TraceHolds<Row>(attempts: seq<Env<Row>>, env: Env<Row>, e: Event<Row>)
    requires env in attempts && e in EventsOf(env)
    ensures e in Trace(attempts)
  {
    if env != attempts[0] {
      assert env in attempts[1..];
      TraceHolds(attempts[1..], env, e);
    }
  }

  lemma ReachingEvents<Row>(env: Env<Row>, rows: multiset<Row>)
    requires ReachesInsert(env, rows)
    ensures Event(Started, Some(env.collected.rows)) in EventsOf(env)
    ensures forall e | e in EventsOf(env) :: e.pdf == Some(env.collected.rows) && !e.status.SkippedEmpty?
  {
  }

  /** Two events of one batch that were computed from the same rows never conflict, unless the
      batch was seen empty first. */
  lemma SameFrameNoConflict<Row(!new)>(id: BatchId, a: Event<Row>, b: Event<Row>, hash: KeyHash,
                                       checksum: seq<Row> -> string)
    requires OrderInsensitive(checksum) && SameRows(a, b) && !a.status.SkippedEmpty?
    ensures !Conflict(Classify(Some(ToLedgerRow(id, a, hash, checksum)), ToLedgerRow(id, b, hash, checksum)))
  {
    if a.pdf.Some? && b.pdf.Some? {
      BatchChecksum.SameLength(a.pdf.value, b.pdf.value);
    }
  }

  /** What the ledger does with an event that does not conflict: by the two statuses. */
  function Expected(earlier: Status, later: Status): Action
    requires !earlier.SkippedEmpty?
  {
    match (earlier, later)
    case (Started, Started) => DuplicateInProgress
    case (Started, _) => AdvanceStatus
    case (Success, Success) => DuplicateTerminal
    case (Failed, Failed) => DuplicateTerminal
    case (Failed, Started) => RecordRetry
    case (Success, Started) => KeepSuccessMarkRetry
    case (Success, Failed) => KeepSuccessMarkRetry
    case (_, _) => RecordObservation
  }

  /** Two rows under one key conflict exactly when both have a checksum and these differ, when the row
      counts differ, or when a batch that was skipped as empty gets another status; the issues say which. */
  lemma ConflictsExactly(earlier: LedgerRow, later: LedgerRow)
    requires earlier.key == later.key
    ensures var v := Classify(Some(earlier), later);
            && (Conflict(v) <==>
                  ChecksumMismatch in v.issues || RowCountMismatch in v.issues || SkippedEmptyChanged in v.issues)
            && (ChecksumMismatch in v.issues <==>
                  Truthy(earlier.checksum) && Truthy(later.checksum) && earlier.checksum.value != later.checksum.value)
            && (RowCountMismatch in v.issues <==> earlier.rowCount != later.rowCount)
            && (SkippedEmptyChanged in v.issues ==> earlier.status.SkippedEmpty? && !later.status.SkippedEmpty?)
            && (earlier.status.SkippedEmpty? && !later.status.SkippedEmpty? ==> Conflict(v))
    ensures Classify(None, later) == Verdict(InsertNew, [])
  {
  }

  function RowsOf<Row>(e: Event<Row>): seq<Row> {
    if e.pdf.Some? then e.pdf.value else []
  }

  /** Two events of one batch: their checksums are compared when both saw rows, their row counts always. */
  lemma EventsConflictExactly<Row>(id: BatchId, a: Event<Row>, b: Event<Row>, hash: KeyHash,
                                   checksum: seq<Row> -> string)
    ensures var v := Classify(Some(ToLedgerRow(id, a, hash, checksum)), ToLedgerRow(id, b, hash, checksum));
            var x, y := checksum(RowsOf(a)), checksum(RowsOf(b));
            && (ChecksumMismatch in v.issues <==> RowsOf(a) != [] && RowsOf(b) != [] && x != "" && y != "" && x != y)
            && (RowCountMismatch in v.issues <==> |RowsOf(a)| != |RowsOf(b)|)
            && KeyMismatch !in v.issues
  {
    hide LedgerKey;
  }

  /** In a trace without conflicts the statuses alone decide the action, and a retry after a success is
      the only issue that is noted. */
  lemma {:induction false} TraceActions<Row(!new)>(id: BatchId, attempts: seq<Env<Row>>, rows: multiset<Row>,
                                                   hash: KeyHash, checksum: seq<Row> -> string, i: nat, j: nat)
    requires OrderInsensitive(checksum) && forall env | env in attempts :: ReachesInsert(env, rows)
    requires i < j < |Trace(attempts)|
    ensures var a, b := Trace(attempts)[i], Trace(attempts)[j];
            var v := Classify(Some(ToLedgerRow(id, a, hash, checksum)), ToLedgerRow(id, b, hash, checksum));
            && !a.status.SkippedEmpty? && v.action == Expected(a.status, b.status)
            && v.issues == if v.action.KeepSuccessMarkRetry? then [RetryAfterSuccess] else []
  {
    var events := Trace(attempts);
    EventOfUnmixed(attempts, rows, events[i]);
    EventOfUnmixed(attempts, rows, events[j]);
    hide Trace, ReachesInsert, OrderInsensitive;
    SameRowsAction(id, events[i], events[j], hash, checksum);
  }

  lemma SameRowsAction<Row(!new)>(id: BatchId, a: Event<Row>, b: Event<Row>, hash: KeyHash,
                                  checksum: seq<Row> -> string)
    requires OrderInsensitive(checksum) && SameRows(a, b) && !a.status.SkippedEmpty?
    ensures var v := Classify(Some(ToLedgerRow(id, a, hash, checksum)), ToLedgerRow(id, b, hash, checksum));
            && v.action == Expected(a.status, b.status)
            && v.issues == if v.action.KeepSuccessMarkRetry? then [RetryAfterSuccess] else []
  {
    if a.pdf.Some? && b.pdf.Some? {
      BatchChecksum.SameLength(a.pdf.value, b.pdf.value);
    }
  }

  /** Retries of one batch, each reaching the insert with the same rows in some order or failing before
      there is a frame: the trace is free of conflicts exactly when the two kinds do not mix. */
  lemma {:induction false} RetryTraces<Row(!new)>(id: BatchId, attempts: seq<Env<Row>>, rows: multiset<Row>,
                                                  hash: KeyHash, checksum: seq<Row> -> string)
    requires OrderInsensitive(checksum)
    requires forall env | env in attempts :: ReachesInsert(env, rows) || FailsBeforeFrame(env)
    ensures ConflictFree(id, Trace(attempts), hash, checksum)
            <==> (|| (forall env | env in attempts :: ReachesInsert(env, rows))
                  || (forall env | env in attempts :: FailsBeforeFrame(env)))
  {
    hide EventsOf, Classify, OrderInsensitive;
    var events := Trace(attempts);
    if (forall env | env in attempts :: ReachesInsert(env, rows))
       || (forall env | env in attempts :: FailsBeforeFrame(env)) {
      UnmixedNoConflict(id, attempts, rows, hash, checksum);
    } else {
      var reaching :| reaching in attempts && !FailsBeforeFrame(reaching);
      var failing :| failing in attempts && !ReachesInsert(failing, rows);
      ReachingEvents(reaching, rows);
      var frame := reaching.collected.rows;
      var a, b := Event(Started, Some(frame)), Event<Row>.Event(Failed, None);
      FailingEvents(failing);
      TraceHolds(attempts, reaching, a);
      TraceHolds(attempts, failing, b);
      var i :| 0 <= i < |events| && events[i] == a;
      var j :| 0 <= j < |events| && events[j] == b;
      MixedConflict(id, frame, Started, Failed, hash, checksum);
      assert i < j || j < i;
    }
  }

  lemma FailingEvents<Row>(env: Env<Row>)
    requires FailsBeforeFrame(env)
    ensures EventsOf(env) == [Event(Failed, None)]
  {
  }

  lemma {:induction false} UnmixedNoConflict<Row(!new)>(id: BatchId, attempts: seq<Env<Row>>, rows: multiset<Row>,
                                                        hash: KeyHash, checksum: seq<Row> -> string)
    requires OrderInsensitive(checksum)
    requires || (forall env | env in attempts :: ReachesInsert(env, rows))
             || (forall env | env in attempts :: FailsBeforeFrame(env))
    ensures ConflictFree(id, Trace(attempts), hash, checksum)
  {
    hide EventsOf, Classify, ToLedgerRow, OrderInsensitive;
    var events := Trace(attempts);
    forall i, j | 0 <= i < j < |events|
      ensures !Conflict(Classify(Some(ToLedgerRow(id, events[i], hash, checksum)),
                                 ToLedgerRow(id, events[j], hash, checksum)))
    {
      EventOfUnmixed(attempts, rows, events[i]);
      EventOfUnmixed(attempts, rows, events[j]);
      SameFrameNoConflict(id, events[i], events[j], hash, checksum);
    }
  }

  lemma {:induction false} EventOfUnmixed<Row>(attempts: seq<Env<Row>>, rows: multiset<Row>, e: Event<Row>)
    requires || (forall env | env in attempts :: ReachesInsert(env, rows))
             || (forall env | env in attempts :: FailsBeforeFrame(env))
    requires e in Trace(attempts)
    ensures !e.status.SkippedEmpty?
    ensures if attempts != [] && ReachesInsert(attempts[0], rows) then e.pdf.Some? && multiset(e.pdf.value) == rows
            else e.pdf == None
  {
    var env := TraceOrigin(attempts, e);
    assert attempts[0] in attempts;
    if ReachesInsert(env, rows) {
      ReachingEvents(env, rows);
    } else {
      FailingEvents(env);
    }
  }

  /** An event computed from the frame against one from before there was a frame, whatever their
      statuses: a row-count conflict, in either order. */
  lemma MixedConflict<Row>(id: BatchId, rows: seq<Row>, x: Status, y: Status, hash: KeyHash,
                           checksum: seq<Row> -> string)
    requires rows != []
    ensures var a := ToLedgerRow(id, Event(x, Some(rows)), hash, checksum);
            var b := ToLedgerRow(id, Event<Row>.Event(y, None), hash, checksum);
            && Classify(Some(a), b) == Verdict(QuarantineConflict, [RowCountMismatch])
            && Classify(Some(b), a) == Verdict(QuarantineConflict, [RowCountMismatch])
  {
  }

  // ------------------------------------------------------------------ keys

  ghost predicate Injective(hash: KeyHash) {
    forall p, q, r, n, p', q', r', n' ::
      hash(p, q, r, n) == hash(p', q', r', n') ==> p == p' && q == q' && r == r' && n == n'
  }

  /** The checkpoint path is there and not blank. */
  predicate CheckpointKnown(id: BatchId) {
    id.checkpoint.Some? && exists c :: c in id.checkpoint.value && !IsSpace(c)
  }

  lemma KnownExactly(id: BatchId, hash: KeyHash)
    ensures LedgerKey(id, hash).Some? <==> CheckpointKnown(id)
  {
    if id.checkpoint.Some? {
      var path := id.checkpoint.value;
      var right := RStrip(path);
      var s := LStrip(right);
      assert Strip(path) == s;
      if s != [] {
        assert s[0] == right[|right| - |s|] && right <= path;
        assert s[0] in path;
      }
      if c :| c in path && !IsSpace(c) {
        var k :| 0 <= k < |path| && path[k] == c;
        assert k < |right| && right[k] == c;
      }
    }
  }

  /** Under an injective hash, rows of two batches are told apart by their keys exactly when a
      checkpoint path is known for one of them and the stripped identities differ. */
  lemma KeysSeparateBatches(a: BatchId, b: BatchId, x: LedgerRow, y: LedgerRow, hash: KeyHash)
    requires x.key == LedgerKey(a, hash) && y.key == LedgerKey(b, hash)
    ensures Injective(hash) ==>
              (Classify(Some(x), y).action == RejectKeyMismatch
               <==> (CheckpointKnown(a) || CheckpointKnown(b))
                    && !(CheckpointKnown(a) && CheckpointKnown(b)
                         && Strip(a.job) == Strip(b.job) && Strip(a.table) == Strip(b.table)
                         && Strip(a.checkpoint.value) == Strip(b.checkpoint.value) && a.batch == b.batch))
  {
    hide Strip;
    KnownExactly(a, hash);
    KnownExactly(b, hash);
    assert CheckpointKnown(a) ==> a.checkpoint.Some?;
    assert CheckpointKnown(b) ==> b.checkpoint.Some?;
    hide CheckpointKnown;
  }
}
