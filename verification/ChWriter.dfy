/**
  The ClickHouse foreachBatch writer: insert, audit trail, dead-letter files, and the decision
  whether the exception is raised again, which is what keeps Spark from advancing its checkpoint.
*/
module ChWriter {
  import opened PyText

  datatype Error = Error(kind: string)

  datatype Status = Started | Success | Failed | SkippedEmpty

  /** One emitted audit event; `pdf` is the frame it was computed from, if there was one. */
  datatype Event<+Row> = Event(status: Status, pdf: Option<seq<Row>>)

  /** The outcome of collecting the batch and of restoring its timestamp columns. */
  datatype Collected<+Row> =
    | Frame(rows: seq<Row>)
    | CollectRaises(error: Error)
    | RestoreRaises(error: Error, partial: seq<Row>)   // rows exist, some columns still text

  /** What happens to the dead-letter files of one failed batch. */
  datatype DlqEnv = DlqEnv(
    directoryOk: bool, metadataOk: bool, dataOk: bool,  // each file operation succeeds or raises
    metadataLeft: bool, dataLeft: Option<nat>,          // what a raising write leaves: a file, some lines
    stem: string,                                       // file name without its extension
    mtime: real, now: real,                             // of the new file, and at the cleanup
    listing: seq<string>,                               // sorted(glob("ch_failure_*.json"), key=mtime)
    sortRaises: bool, statFails: set<string>,           // a stat while sorting, or in the age loop, raises
    fails: Fails)                                       // and so does the removal of these

  datatype Env<+Row> = Env(
    collected: Collected<Row>,
    skipAudit: Option<Error>, startedAudit: Option<Error>, insertion: Option<Error>, successAudit: Option<Error>,
    failedAudit: Option<Error>,
    dlq: DlqEnv)

  datatype Config = Config(
    failFast: bool, failFastAfter: nat, failFastTypes: set<string>, raiseAfterDlq: bool,
    cleanupEnabled: bool, maxAge: real, maxFiles: nat)
  {
    /** What reading the environment variables guarantees. */
    predicate Sane() {
      1 <= failFastAfter && 3600.0 <= maxAge && 10 <= maxFiles
    }

    function ShouldFailFast(kind: string, failures: nat): bool {
      failFast && failFastAfter <= failures && ("*" in failFastTypes || kind in failFastTypes)
    }

    function ShouldRaiseAfterDlq(kind: string): bool {
      raiseAfterDlq && !Operational(kind)
    }
  }

  /** The settings from the numbers in the environment, each with its least value. */
  function ReadConfig(failFast: bool, consecutive: int, types: set<string>, raiseAfterDlq: bool, cleanupEnabled: bool,
                      ageHours: int, files: int): (c: Config)
    ensures c.Sane()
    ensures (consecutive >= 1 ==> c.failFastAfter == consecutive) && (files >= 10 ==> c.maxFiles == files)
    ensures ageHours >= 1 ==> c.maxAge == ageHours as real * 3600.0
  {
    Config(failFast, if consecutive > 1 then consecutive else 1, types, raiseAfterDlq, cleanupEnabled,
           (if ageHours > 1 then ageHours else 1) as real * 3600.0, if files > 10 then files else 10)
  }

  const CLEANUP_INTERVAL: real := 3600.0

  /** `_is_spark_operational_error`. */
  predicate Operational(kind: string) {
    "spark_" <= kind
  }

  datatype Outcome = Returned | Raised

  // ------------------------------------------------------------------ the try block

  /** The exception that leaves the try block, if any. */
  function TryError<Row>(env: Env<Row>): Option<Error> {
    match env.collected
    case CollectRaises(e) => Some(e)
    case RestoreRaises(e, _) => Some(e)
    case Frame(rows) =>
      if rows == [] then env.skipAudit
      else if env.startedAudit.Some? then env.startedAudit
      else if env.insertion.Some? then env.insertion
      else env.successAudit
  }

  /** The frame in hand when the try block is left. */
  function Pdf<Row>(env: Env<Row>): Option<seq<Row>> {
    match env.collected
    case CollectRaises(_) => None
    case RestoreRaises(_, partial) => Some(partial)
    case Frame(rows) => Some(rows)
  }

  predicate Inserts<Row>(env: Env<Row>) {
    env.collected.Frame? && env.collected.rows != [] && env.startedAudit.None? && env.insertion.None?
  }

  function TryEvents<Row>(env: Env<Row>): seq<Event<Row>> {
    if !env.collected.Frame? then []
    else
      var pdf := Some(env.collected.rows);
      if env.collected.rows == [] then if env.skipAudit.None? then [Event(SkippedEmpty, pdf)] else []
      else if env.startedAudit.Some? then []
      else [Event(Started, pdf)]
           + if env.insertion.None? && env.successAudit.None? then [Event(Success, pdf)] else []
  }

  /** The audit events of one attempt. */
  function EventsOf<Row>(env: Env<Row>): seq<Event<Row>> {
    TryEvents(env) + if TryError(env).Some? && env.failedAudit.None? then [Event(Failed, Pdf(env))] else []
  }

  /** The dead-letter files are complete: only then is `dlq_persisted` assigned at all. */
  predicate DlqComplete<Row>(env: Env<Row>) {
    env.dlq.directoryOk && env.dlq.metadataOk && (Pdf(env).Some? ==> env.dlq.dataOk)
  }

  /** Exactly when the callback returns, and so lets Spark advance its checkpoint. */
  predicate Returns<Row>(env: Env<Row>, config: Config, failuresBefore: nat) {
    match TryError(env)
    case None => true
    case Some(e) =>
      && env.failedAudit.None? && !Operational(e.kind) && DlqComplete(env)
      && !config.ShouldRaiseAfterDlq(e.kind) && !config.ShouldFailFast(e.kind, failuresBefore + 1)
  }

  /** In strict retry mode only an empty or an inserted batch lets the checkpoint advance. */
  lemma StrictModeReturns<Row>(env: Env<Row>, config: Config, failuresBefore: nat)
    requires config.raiseAfterDlq && Returns(env, config, failuresBefore)
    ensures env.collected == Frame([]) || Inserts(env)
  {
  }

  // ------------------------------------------------------------------ what that means, case by case

  /** The attempt fails with this exception: collecting or restoring raises it, or the first of the
      audit events and the insert that raises. */
  predicate FailsWith<Row>(env: Env<Row>, e: Error) {
    match env.collected
    case CollectRaises(raised) => raised == e
    case RestoreRaises(raised, _) => raised == e
    case Frame(rows) =>
      || (|rows| == 0 && env.skipAudit == Some(e))
      || (|rows| > 0 && env.startedAudit == Some(e))
      || (|rows| > 0 && env.startedAudit.None? && env.insertion == Some(e))
      || (|rows| > 0 && env.startedAudit.None? && env.insertion.None? && env.successAudit == Some(e))
  }

  /** The kind of an exception that Spark itself raised. */
  predicate FromSpark(kind: string) {
    |kind| >= 6 && kind[..6] == "spark_"
  }

  /** The directory was made, the metadata written, and the rows too if they had been collected. */
  predicate FilesWritten<Row>(env: Env<Row>) {
    env.dlq.directoryOk && env.dlq.metadataOk && (env.dlq.dataOk || env.collected.CollectRaises?)
  }

  /** A batch without an exception lets the checkpoint advance. */
  lemma SuccessReturns<Row>(env: Env<Row>, config: Config, failuresBefore: nat)
    requires forall e :: !FailsWith(env, e)
    ensures Returns(env, config, failuresBefore) && TryError(env).None?
    ensures env.collected == Frame([]) || Inserts(env)
  {
    var skip, insertion := env.skipAudit, env.insertion;
    assert env.collected.CollectRaises? ==> FailsWith(env, env.collected.error);
    assert env.collected.RestoreRaises? ==> FailsWith(env, env.collected.error);
    assert env.skipAudit.Some? ==> !FailsWith(env, env.skipAudit.value);
    assert env.startedAudit.Some? ==> !FailsWith(env, env.startedAudit.value);
    assert env.insertion.Some? ==> !FailsWith(env, env.insertion.value);
    assert env.successAudit.Some? ==> !FailsWith(env, env.successAudit.value);
  }

  /** A batch that fails lets the checkpoint advance exactly when the exception is not Spark's, its audit
      event and its files are written, and neither switch asks for the exception. */
  lemma FailureReturnsExactly<Row>(env: Env<Row>, config: Config, failuresBefore: nat, e: Error)
    requires FailsWith(env, e)
    ensures TryError(env) == Some(e)
    ensures Returns(env, config, failuresBefore) <==>
              && !FromSpark(e.kind) && env.failedAudit.None? && FilesWritten(env) && !config.raiseAfterDlq
              && !(config.failFast && failuresBefore + 1 >= config.failFastAfter
                   && ("*" in config.failFastTypes || e.kind in config.failFastTypes))
  {
    assert FromSpark(e.kind) <==> "spark_" <= e.kind;
  }

  /** The audit trail of an attempt: what was emitted, in order, and when rows were inserted. */
  lemma AuditExactly<Row>(env: Env<Row>)
    ensures Inserts(env) <==>
              env.collected.Frame? && Event(Started, Some(env.collected.rows)) in EventsOf(env) && env.insertion.None?
    ensures forall e | e in EventsOf(env) && e.status.Started? ::
              && env.collected == Frame(e.pdf.value) && e.pdf.value != []
              && env.startedAudit.None? && EventsOf(env)[0] == e
    ensures (exists e :: e in EventsOf(env) && e.status.Started?)
            <==> env.collected.Frame? && env.collected.rows != [] && env.startedAudit.None?
    ensures (exists e :: e in EventsOf(env) && e.status.Success?)
            <==> env.collected != Frame([]) && forall e :: !FailsWith(env, e)
    ensures (exists e :: e in EventsOf(env) && e.status.SkippedEmpty?)
            <==> env.collected == Frame([]) && env.skipAudit.None?
    ensures (exists e :: e in EventsOf(env) && e.status.Failed?)
            <==> env.failedAudit.None? && exists e :: FailsWith(env, e)
  {
    if forall e :: !FailsWith(env, e) {
      SuccessReturns(env, Config(false, 1, {}, false, false, 0.0, 0), 0);
    } else {
      var e :| FailsWith(env, e);
      FailureReturnsExactly(env, Config(false, 1, {}, false, false, 0.0, 0), 0, e);
    }
    hide FailsWith;
    var events := EventsOf(env);
    assert forall k | 0 <= k < |events| :: events[k] in events;
  }

  // ------------------------------------------------------------------ failure counts over a history

  /** One finished attempt on a table: written, skipped as empty, or failed. */
  datatype Attempt = Wrote(table: string) | Skipped(table: string) | FailedOn(table: string)

  /** Failures of a table since its last successful insert. */
  function Consecutive(history: seq<Attempt>, table: string): nat {
    if history == [] then 0
    else
      var last, before := history[|history| - 1], Consecutive(history[..|history| - 1], table);
      if last == Wrote(table) then 0 else if last == FailedOn(table) then before + 1 else before
  }

  /** The positions of the failures on the table from k on. */
  ghost function FailuresFrom(history: seq<Attempt>, table: string, k: nat): set<int> {
    set j: int | k <= j < |history| && history[j] == FailedOn(table)
  }

  lemma OneFailureMore(history: seq<Attempt>, table: string, k: nat)
    requires k < |history|
    ensures |FailuresFrom(history, table, k)|
            == |FailuresFrom(history[..|history| - 1], table, k)|
               + if history[|history| - 1] == FailedOn(table) then 1 else 0
  {
    var n := |history| - 1;
    var before := FailuresFrom(history[..n], table, k);
    assert n !in before;
    if history[n] == FailedOn(table) {
      assert FailuresFrom(history, table, k) == before + {n};
    } else {
      assert FailuresFrom(history, table, k) == before;
    }
  }

  /** The count is the number of failures on the table after its last write, or of all if it has none. */
  lemma {:induction false} ConsecutiveIsStreak(history: seq<Attempt>, table: string, k: nat)
    requires k <= |history| && (k == 0 || history[k - 1] == Wrote(table))
    requires forall j | k <= j < |history| :: history[j] != Wrote(table)
    ensures Consecutive(history, table) == |FailuresFrom(history, table, k)|
  {
    if k < |history| {
      var before := history[..|history| - 1];
      ConsecutiveIsStreak(before, table, k);
      OneFailureMore(history, table, k);
    }
  }

  /** With fail-fast on for every type, a batch that fails and leaves its traces raises exactly from the
      failFastAfter-th failure on since the table was last written. */
  lemma FailFastFromNth<Row>(env: Env<Row>, config: Config, history: seq<Attempt>, table: string, k: nat, e: Error)
    requires FailsWith(env, e) && !FromSpark(e.kind) && env.failedAudit.None? && FilesWritten(env)
    requires config.failFast && "*" in config.failFastTypes && !config.raiseAfterDlq
    requires k <= |history| && (k == 0 || history[k - 1] == Wrote(table))
    requires forall j | k <= j < |history| :: history[j] != Wrote(table)
    ensures Returns(env, config, Consecutive(history, table))
            <==> |FailuresFrom(history, table, k)| + 1 < config.failFastAfter
  {
    hide Consecutive;
    ConsecutiveIsStreak(history, table, k);
    FailureReturnsExactly(env, config, Consecutive(history, table), e);
  }

  function AttemptOf<Row>(env: Env<Row>, table: string): Attempt {
    if TryError(env).Some? then FailedOn(table)
    else if Inserts(env) then Wrote(table)
    else Skipped(table)
  }

  /** An attempt counts as a failure when it raises, resets the count when it has written rows, and
      leaves it alone when the batch was empty. */
  lemma CountAfter<Row>(env: Env<Row>, history: seq<Attempt>, table: string, other: string)
    ensures var before, after := Consecutive(history, other), Consecutive(history + [AttemptOf(env, table)], other);
            && (other != table ==> after == before)
            && (other == table && (exists e :: FailsWith(env, e)) ==> after == before + 1)
            && (other == table && (forall e :: !FailsWith(env, e)) ==>
                  after == if env.collected == Frame([]) then before else 0)
  {
    var longer := history + [AttemptOf(env, table)];
    assert longer[..|longer| - 1] == history;
    if forall e :: !FailsWith(env, e) {
      SuccessReturns(env, Config(false, 1, {}, false, false, 0.0, 0), 0);
    } else {
      var e :| FailsWith(env, e);
      FailureReturnsExactly(env, Config(false, 1, {}, false, false, 0.0, 0), 0, e);
    }
  }

  // ------------------------------------------------------------------ the dead-letter directory

  /** A metadata file; one whose write raised is not complete. */
  datatype Meta = Meta(mtime: real, table: string, rowCount: nat, complete: bool)

  /** names lists exactly the metadata files, oldest first. */
  ghost predicate Listing(names: seq<string>, files: map<string, Meta>) {
    && (forall i, j | 0 <= i < j < |names| :: names[i] != names[j])
    && (forall n :: n in names <==> n in files)
    && (forall i, j | 0 <= i < j < |names| :: files[names[i]].mtime <= files[names[j]].mtime)
  }

  /** The files that a cleanup with this cutoff and limit may not touch. */
  ghost predicate Protected(name: string, names: seq<string>, files: map<string, Meta>, cutoff: real, maxFiles: nat) {
    && name in files && cutoff <= files[name].mtime
    && (|names| >= maxFiles ==> name !in names[..Excess(|names|, maxFiles)])
  }

  function Excess(n: nat, maxFiles: nat): (k: nat)
    ensures k <= n
  {
    if maxFiles == 0 || n < maxFiles then 0 else n - maxFiles + 1
  }

  /** The number of files listed after the given one. */
  function NewerFiles(name: string, names: seq<string>): (n: nat)
    requires name in names
    ensures n < |names| && names[|names| - 1 - n] == name && name !in names[|names| - n..]
  {
    if names[|names| - 1] == name then 0
    else
      assert names == names[..|names| - 1] + [names[|names| - 1]];
      NewerFiles(name, names[..|names| - 1]) + 1
  }

  /** A file is out of reach of the cleanup exactly when it is young enough and fewer than maxFiles - 1
      files are listed after it. */
  lemma ProtectedExactly(name: string, names: seq<string>, files: map<string, Meta>, cutoff: real, maxFiles: nat)
    requires Listing(names, files) && name in files && maxFiles >= 1
    ensures Protected(name, names, files, cutoff, maxFiles)
            <==> cutoff <= files[name].mtime && NewerFiles(name, names) < maxFiles - 1
  {
    var n := NewerFiles(name, names);
    var i := |names| - 1 - n;
    if |names| >= maxFiles {
      var k := Excess(|names|, maxFiles);
      if i < k {
        assert names[..k][i] == name;
      } else {
        assert forall j | 0 <= j < k :: names[j] != names[i];
      }
    }
  }

  /** The files whose removal raises. */
  datatype Fails = Fails(unlink: set<string>, dataUnlink: set<string>)

  /** The metadata files that were aimed at are gone unless that raised, and with them their data files
      unless that raised; everything else is as before. */
  ghost predicate Swept<Row>(before: map<string, Meta>, dataBefore: map<string, seq<Row>>, after: map<string, Meta>,
                             dataAfter: map<string, seq<Row>>, aimed: set<string>, fails: Fails)
  {
    after == before - (aimed - fails.unlink) && dataAfter == dataBefore - ((aimed - fails.unlink) - fails.dataUnlink)
  }

  /** The file goes with its data. */
  ghost predicate Goes<Row>(name: string, data: map<string, seq<Row>>, fails: Fails) {
    name !in fails.unlink && (name !in data || name !in fails.dataUnlink)
  }

  lemma SweptAgain<Row>(before: map<string, Meta>, dataBefore: map<string, seq<Row>>, middle: map<string, Meta>,
                        dataMiddle: map<string, seq<Row>>, after: map<string, Meta>, dataAfter: map<string, seq<Row>>,
                        aimed: set<string>, name: string, fails: Fails)
    requires Swept(before, dataBefore, middle, dataMiddle, aimed, fails) && name in before
    requires name in middle ==> Swept(middle, dataMiddle, after, dataAfter, {name}, fails)
    requires name !in middle ==> after == middle && dataAfter == dataMiddle
    ensures Swept(before, dataBefore, after, dataAfter, aimed + {name}, fails)
  {
    var first, second := aimed - fails.unlink, {name} - fails.unlink;
    assert (aimed + {name}) - fails.unlink == first + second;
    if name in middle {
      assert before - first - second == before - (first + second);
      assert dataBefore - (first - fails.dataUnlink) - (second - fails.dataUnlink)
          == dataBefore - ((first + second) - fails.dataUnlink);
    } else {
      assert second <= first;
      assert first + second == first;
    }
  }

  /** The listed files that are older than the cutoff. */
  ghost function Old(names: seq<string>, files: map<string, Meta>, cutoff: real): set<string> {
    set n | n in names && n in files && files[n].mtime < cutoff
  }

  ghost function Oldest(names: seq<string>, k: nat): set<string>
    requires k <= |names|
  {
    set n | n in names[..k]
  }

  lemma OneMoreOld(names: seq<string>, k: nat, files: map<string, Meta>, cutoff: real)
    requires k < |names| && names[k] in files
    ensures Old(names[..k + 1], files, cutoff)
            == Old(names[..k], files, cutoff) + if files[names[k]].mtime < cutoff then {names[k]} else {}
  {
    assert names[..k + 1] == names[..k] + [names[k]];
  }

  lemma OneMoreOldest(names: seq<string>, k: nat)
    requires k < |names|
    ensures Oldest(names, k + 1) == Oldest(names, k) + {names[k]}
  {
    assert names[..k + 1] == names[..k] + [names[k]];
  }

  lemma NotYetSwept<Row>(before: map<string, Meta>, dataBefore: map<string, seq<Row>>, after: map<string, Meta>,
                         dataAfter: map<string, seq<Row>>, names: seq<string>, k: nat, cutoff: real, fails: Fails)
    requires Listing(names, before) && k < |names|
    requires Swept(before, dataBefore, after, dataAfter, Old(names[..k], before, cutoff), fails)
    ensures names[k] in before && names[k] in after && after[names[k]] == before[names[k]]
    ensures names[k] !in Old(names[..k], before, cutoff)
    ensures Goes(names[k], dataAfter, fails) == Goes(names[k], dataBefore, fails)
  {
    assert names[k] in names;
    assert names[k] !in names[..k];
  }

  /** The files that a cleanup sets out to remove: those past the age limit, and when none of them goes
      with its data, the oldest ones of a directory that has reached its limit too. */
  ghost function Due<Row>(names: seq<string>, files: map<string, Meta>, data: map<string, seq<Row>>, cutoff: real,
                          maxFiles: nat, fails: Fails): set<string>
  {
    var aged := Old(names, files, cutoff);
    if exists n :: n in aged && Goes(n, data, fails) then aged
    else aged + Oldest(names, Excess(|names|, maxFiles))
  }

  lemma DueIs<Row>(names: seq<string>, files: map<string, Meta>, data: map<string, seq<Row>>, cutoff: real,
                   maxFiles: nat, fails: Fails)
    ensures var aged, due := Old(names, files, cutoff), Due(names, files, data, cutoff, maxFiles, fails);
            due == if (forall n | n in aged :: !Goes(n, data, fails)) && |names| >= maxFiles
                   then aged + Oldest(names, Excess(|names|, maxFiles)) else aged
  {
    hide Goes, Old;
  }

  /** Files that are young enough and not among the oldest surplus stay. */
  lemma SweptKeeps<Row>(before: map<string, Meta>, dataBefore: map<string, seq<Row>>, after: map<string, Meta>,
                        dataAfter: map<string, seq<Row>>, aimed: set<string>, names: seq<string>, cutoff: real,
                        maxFiles: nat, fails: Fails)
    requires Swept(before, dataBefore, after, dataAfter, aimed, fails)
    requires aimed <= Old(names, before, cutoff) + Oldest(names, Excess(|names|, maxFiles))
    ensures forall n | Protected(n, names, before, cutoff, maxFiles) ::
              n in after && after[n] == before[n]
              && (n in dataBefore ==> n in dataAfter && dataAfter[n] == dataBefore[n])
  {
  }

  class ClickHouseWriter<Row(==)> {
    const config: Config
    var failureCounts: map<string, nat>
    var audit: seq<Event<Row>>
    var inserted: seq<(string, seq<Row>)>
    var metadata: map<string, Meta>
    var data: map<string, seq<Row>>
    var lastCleanupAt: real
    ghost var history: seq<Attempt>

    ghost predicate Valid()
      reads this
    {
      && config.Sane()
      && forall t :: (if t in failureCounts then failureCounts[t] else 0) == Consecutive(history, t)
    }

    constructor (config: Config)
      requires config.Sane()
      ensures Valid() && history == [] && audit == [] && inserted == [] && this.config == config
    {
      this.config := config;
      failureCounts, audit, inserted, metadata, data, lastCleanupAt := map[], [], [], map[], map[], 0.0;
      history := [];
    }

    /** `_record_failure`. */
    method RecordFailure(table: string) returns (count: nat)
      requires Valid()
      modifies `failureCounts, `history
      ensures Valid() && history == old(history) + [FailedOn(table)]
      ensures count == Consecutive(history, table)
    {
      count := (if table in failureCounts then failureCounts[table] else 0) + 1;
      failureCounts := failureCounts[table := count];
      history := history + [FailedOn(table)];
      assert history[..|history| - 1] == old(history);
    }

    /** `_reset_failure_count`. */
    method ResetFailureCount(table: string)
      requires Valid()
      modifies `failureCounts, `history
      ensures Valid() && history == old(history) + [Wrote(table)]
    {
      failureCounts := map t | t in failureCounts && t != table :: failureCounts[t];
      history := history + [Wrote(table)];
      assert history[..|history| - 1] == old(history);
    }

    /** Removes one metadata file and its data file; true when both went. */
    method Unlink(name: string, fails: Fails) returns (deleted: bool)
      modifies `metadata, `data
      ensures name in old(metadata) ==> Swept(old(metadata), old(data), metadata, data, {name}, fails)
      ensures name !in old(metadata) ==> metadata == old(metadata) && data == old(data)
      ensures deleted <==> name in old(metadata) && Goes(name, old(data), fails)
    {
      if name !in metadata || name in fails.unlink {
        return false;
      }
      metadata := metadata - {name};
      if name in data {
        if name in fails.dataUnlink {
          return false;
        }
        data := data - {name};
      }
      return true;
    }

    /** `_cleanup_old_dlq_files`: by age, and only if nothing went by age, by number.  A `stat` that
        raises on the way leaves what has been removed so far removed; otherwise exactly the files that
        are due go. */
    method CleanupOldDlqFiles(listing: seq<string>, now: real, statFails: set<string>, fails: Fails)
      returns (deleted: nat, raised: bool)
      requires config.Sane() && Listing(listing, metadata)
      modifies `metadata, `data
      ensures raised <==> config.cleanupEnabled && exists n :: n in listing && n in statFails
      ensures !config.cleanupEnabled ==> metadata == old(metadata) && data == old(data)
      ensures config.cleanupEnabled && !raised ==>
                Swept(old(metadata), old(data), metadata, data,
                      Due(listing, old(metadata), old(data), now - config.maxAge, config.maxFiles, fails), fails)
      ensures forall n | Protected(n, listing, old(metadata), now - config.maxAge, config.maxFiles) ::
                n in metadata && metadata[n] == old(metadata)[n]
                && (n in old(data) ==> n in data && data[n] == old(data)[n])
    {
      deleted, raised := 0, false;
      if !config.cleanupEnabled {
        return;
      }
      ghost var before, dataBefore := metadata, data;
      ghost var aimed;
      deleted, raised, aimed := Sweep(listing, now - config.maxAge, statFails, fails);
      SweptKeeps(before, dataBefore, metadata, data, aimed, listing, now - config.maxAge, config.maxFiles, fails);
    }

    /** The cleanup where it is enabled. */
    method Sweep(listing: seq<string>, cutoff: real, statFails: set<string>, fails: Fails)
      returns (deleted: nat, raised: bool, ghost aimed: set<string>)
      requires Listing(listing, metadata)
      modifies `metadata, `data
      ensures raised <==> exists n :: n in listing && n in statFails
      ensures Swept(old(metadata), old(data), metadata, data, aimed, fails)
      ensures aimed <= Old(listing, old(metadata), cutoff) + Oldest(listing, Excess(|listing|, config.maxFiles))
      ensures !raised ==> aimed == Due(listing, old(metadata), old(data), cutoff, config.maxFiles, fails)
    {
      ghost var before, dataBefore := metadata, data;
      deleted, raised, aimed := RemoveByAge(listing, cutoff, statFails, fails);
      DueIs(listing, before, dataBefore, cutoff, config.maxFiles, fails);
      hide Swept, Listing, Goes, Old, Oldest, Excess, Due;
      if !raised && deleted == 0 && |listing| >= config.maxFiles {
        deleted, aimed := RemoveSurplus(listing, Excess(|listing|, config.maxFiles), before, dataBefore, aimed, fails);
      }
    }

    /** The first loop of the cleanup. */
    method RemoveByAge(listing: seq<string>, cutoff: real, statFails: set<string>, fails: Fails)
      returns (deleted: nat, raised: bool, ghost aimed: set<string>)
      requires Listing(listing, metadata)
      modifies `metadata, `data
      ensures raised <==> exists n :: n in listing && n in statFails
      ensures Swept(old(metadata), old(data), metadata, data, aimed, fails)
      ensures aimed <= Old(listing, old(metadata), cutoff)
      ensures !raised ==> aimed == Old(listing, old(metadata), cutoff)
      ensures !raised ==> (deleted == 0 <==> forall n | n in aimed :: !Goes(n, old(data), fails))
    {
      deleted, raised, aimed := 0, false, {};
      ghost var before, dataBefore := metadata, data;
      assert Swept(before, dataBefore, metadata, data, {}, fails) && Old(listing[..0], before, cutoff) == {};
      hide Swept, Old, Listing, Goes;
      for k := 0 to |listing|
        invariant aimed == Old(listing[..k], before, cutoff)
        invariant Swept(before, dataBefore, metadata, data, aimed, fails)
        invariant forall j | 0 <= j < k :: listing[j] !in statFails
        invariant deleted == 0 <==> forall n | n in aimed :: !Goes(n, dataBefore, fails)
      {
        var f := listing[k];
        NotYetSwept(before, dataBefore, metadata, data, listing, k, cutoff, fails);
        OneMoreOld(listing, k, before, cutoff);
        if f in statFails {
          raised := true;
          return;
        }
        if metadata[f].mtime < cutoff {
          ghost var middle, dataMiddle := metadata, data;
          var gone := Unlink(f, fails);
          SweptAgain(before, dataBefore, middle, dataMiddle, metadata, data, aimed, f, fails);
          aimed := aimed + {f};
          deleted := deleted + if gone then 1 else 0;
        }
      }
      assert listing[..|listing|] == listing;
    }

    /** The second loop of the cleanup. */
    method RemoveSurplus(listing: seq<string>, excess: nat, ghost before: map<string, Meta>,
                         ghost dataBefore: map<string, seq<Row>>, ghost aged: set<string>, fails: Fails)
      returns (deleted: nat, ghost aimed: set<string>)
      requires Listing(listing, before) && excess <= |listing|
      requires Swept(before, dataBefore, metadata, data, aged, fails)
      modifies `metadata, `data
      ensures aimed == aged + Oldest(listing, excess)
      ensures Swept(before, dataBefore, metadata, data, aimed, fails)
    {
      deleted, aimed := 0, aged;
      assert Oldest(listing, 0) == {};
      hide Swept, Oldest;
      for k := 0 to excess
        invariant aimed == aged + Oldest(listing, k)
        invariant Swept(before, dataBefore, metadata, data, aimed, fails)
      {
        OneMoreOldest(listing, k);
        ghost var middle, dataMiddle := metadata, data;
        var gone := Unlink(listing[k], fails);
        SweptAgain(before, dataBefore, middle, dataMiddle, metadata, data, aimed, listing[k], fails);
        aimed := aimed + {listing[k]};
        deleted := deleted + if gone then 1 else 0;
      }
    }

    /** Writes the dead-letter files of a failed batch.  The result says whether `dlq_persisted`
        has been assigned; after that only the cleanup can still raise, and that is caught. */
    method WriteDlqFiles(table: string, pdf: Option<seq<Row>>, e: DlqEnv) returns (persisted: bool)
      requires config.Sane()
      requires Listing(e.listing, metadata[e.stem := Meta(e.mtime, table, if pdf.Some? then |pdf.value| else 0, true)])
      modifies `metadata, `data, `lastCleanupAt
      ensures lastCleanupAt
              == if persisted && e.now - old(lastCleanupAt) >= 3600.0 then e.now else old(lastCleanupAt)
      ensures persisted <==> e.directoryOk && e.metadataOk && (pdf.Some? ==> e.dataOk)
      ensures !persisted ==> metadata - {e.stem} == old(metadata) - {e.stem} && data - {e.stem} == old(data) - {e.stem}
      ensures persisted && OutOfReach(e) ==>
                && e.stem in metadata
                && metadata[e.stem] == Meta(e.mtime, table, if pdf.Some? then |pdf.value| else 0, true)
                && (pdf.Some? ==> e.stem in data && data[e.stem] == pdf.value)
    {
      if !e.directoryOk {
        return false;
      }
      if !e.metadataOk {
        if e.metadataLeft {
          metadata := metadata[e.stem := Meta(e.mtime, table, 0, false)];
        }
        return false;
      }
      metadata := metadata[e.stem := Meta(e.mtime, table, if pdf.Some? then |pdf.value| else 0, true)];
      if pdf.Some? {
        if !e.dataOk {
          if e.dataLeft.Some? && e.dataLeft.value <= |pdf.value| {
            data := data[e.stem := pdf.value[..e.dataLeft.value]];
          }
          return false;
        }
        data := data[e.stem := pdf.value];
      }
      persisted := true;
      ghost var written := metadata;
      if e.now - lastCleanupAt >= CLEANUP_INTERVAL {
        lastCleanupAt := e.now;
        if !e.sortRaises {
          ProtectedExactly(e.stem, e.listing, written, e.now - config.maxAge, config.maxFiles);
          var deleted, raised := CleanupOldDlqFiles(e.listing, e.now, e.statFails, e.fails);
        }
      }
    }

    /** The new file is not yet past the age limit, and fewer than maxFiles - 1 files are newer. */
    ghost predicate OutOfReach(e: DlqEnv)
    {
      && e.now - config.maxAge <= e.mtime
      && e.stem in e.listing && NewerFiles(e.stem, e.listing) < config.maxFiles - 1
    }

    method WriteToClickHouse(table: string, env: Env<Row>) returns (outcome: Outcome)
      requires Valid()
      requires Listing(env.dlq.listing,
                       metadata[env.dlq.stem := Meta(env.dlq.mtime, table,
                                                     if Pdf(env).Some? then |Pdf(env).value| else 0, true)])
      modifies this
      ensures Valid() && history == old(history) + [AttemptOf(env, table)]
      ensures audit == old(audit) + EventsOf(env)
      ensures inserted == old(inserted) + if Inserts(env) then [(table, env.collected.rows)] else []
      // exactly these outcomes let Spark advance its checkpoint
      ensures outcome.Returned? <==> Returns(env, config, Consecutive(old(history), table))
      // never on an exception of Spark, which leaves no dead-letter file either
      ensures forall e | FailsWith(env, e) && FromSpark(e.kind) ::
                outcome.Raised? && metadata == old(metadata) && data == old(data)
      // and then nothing was lost without a trace
      ensures outcome.Returned? && OutOfReach(env.dlq) ==>
                || env.collected == Frame([])
                || (env.collected.Frame? && inserted == old(inserted) + [(table, env.collected.rows)])
                || (&& env.dlq.stem in metadata && metadata[env.dlq.stem].complete
                    && (Pdf(env).Some? ==> env.dlq.stem in data && data[env.dlq.stem] == Pdf(env).value))
    {
      var error := TryInsert(table, env);
      if forall e :: !FailsWith(env, e) {
        SuccessReturns(env, config, 0);
      } else {
        var e :| FailsWith(env, e);
        FailureReturnsExactly(env, config, 0, e);
      }
      if error.None? {
        return Returned;
      }
      assert history == old(history);
      outcome := HandleFailure(table, error.value, env);
    }

    /** The try block; the result is the exception that leaves it. */
    method TryInsert(table: string, env: Env<Row>) returns (error: Option<Error>)
      requires Valid()
      modifies `audit, `inserted, `failureCounts, `history
      ensures Valid() && error == TryError(env)
      ensures audit == old(audit) + TryEvents(env)
      ensures inserted == old(inserted) + if Inserts(env) then [(table, env.collected.rows)] else []
      ensures history == old(history) + if error.None? then [AttemptOf(env, table)] else []
    {
      match env.collected {
        case CollectRaises(e) =>
          return Some(e);
        case RestoreRaises(e, partial) =>
          return Some(e);
        case Frame(rows) =>
          var pdf := Some(rows);
          if |rows| == 0 {
            if env.skipAudit.Some? {
              return env.skipAudit;
            }
            audit := audit + [Event(SkippedEmpty, pdf)];
            history := history + [Skipped(table)];
            assert history[..|history| - 1] == old(history);
            return None;
          }
          if env.startedAudit.Some? {
            return env.startedAudit;
          }
          audit := audit + [Event(Started, pdf)];
          if env.insertion.Some? {
            return env.insertion;
          }
          inserted := inserted + [(table, rows)];
          if env.successAudit.Some? {
            return env.successAudit;
          }
          audit := audit + [Event(Success, pdf)];
          ResetFailureCount(table);
          return None;
      }
    }

    /** The except block. */
    method HandleFailure(table: string, error: Error, env: Env<Row>) returns (outcome: Outcome)
      requires Valid() && TryError(env) == Some(error)
      requires Listing(env.dlq.listing,
                       metadata[env.dlq.stem := Meta(env.dlq.mtime, table,
                                                     if Pdf(env).Some? then |Pdf(env).value| else 0, true)])
      modifies `audit, `failureCounts, `history, `metadata, `data, `lastCleanupAt
      ensures Valid() && history == old(history) + [FailedOn(table)]
      ensures audit == old(audit) + if env.failedAudit.None? then [Event(Failed, Pdf(env))] else []
      ensures outcome.Returned? <==> Returns(env, config, Consecutive(old(history), table))
      ensures FromSpark(error.kind) ==> outcome.Raised? && metadata == old(metadata) && data == old(data)
      ensures outcome.Returned? && OutOfReach(env.dlq) ==>
                && env.dlq.stem in metadata && metadata[env.dlq.stem].complete
                && (Pdf(env).Some? ==> env.dlq.stem in data && data[env.dlq.stem] == Pdf(env).value)
    {
      var consecutive := RecordFailure(table);
      assert history[..|history| - 1] == old(history);
      if env.failedAudit.Some? {
        return Raised;
      }
      audit := audit + [Event(Failed, Pdf(env))];
      if Operational(error.kind) {
        return Raised;
      }
      var persisted := WriteDlqFiles(table, Pdf(env), env.dlq);
      if !persisted {
        return Raised;  // reading the unassigned `dlq_persisted` raises
      }
      if config.ShouldRaiseAfterDlq(error.kind) || config.ShouldFailFast(error.kind, consecutive) {
        return Raised;
      }
      return Returned;
    }
  }
}
