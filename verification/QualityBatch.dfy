/**
  Batches behind the quality gate: what reaches the aggregation, what is quarantined, what the
  quality event counts.
*/
module QualityBatch {
  import opened PyText
  import opened QualityGate

  /** `valid_rows`: a filter keeps a row only where the flag is TRUE. */
  function ValidRows(rows: seq<Row>, topic: string, clock: Clock): (r: seq<Row>)
    ensures |r| <= |rows|
  {
    if rows == [] then []
    else
      var rest := ValidRows(rows[1..], topic, clock);
      if IsValid(rows[0], topic, clock).True? then [rows[0]] + rest else rest
  }

  /** `invalid_rows`: the filter on the negated flag. */
  function InvalidRows(rows: seq<Row>, topic: string, clock: Clock): (r: seq<Row>)
    ensures |r| <= |rows|
  {
    if rows == [] then []
    else
      var rest := InvalidRows(rows[1..], topic, clock);
      if IsValid(rows[0], topic, clock).Not().True? then [rows[0]] + rest else rest
  }

  /** The rows that neither filter keeps. */
  function UndecidedRows(rows: seq<Row>, topic: string, clock: Clock): (r: seq<Row>)
    ensures forall row | row in r :: row in rows && IsValid(row, topic, clock).Null?
    ensures r == [] <==> forall row | row in rows :: !IsValid(row, topic, clock).Null?
  {
    if rows == [] then []
    else
      var rest := UndecidedRows(rows[1..], topic, clock);
      assert forall row | row in rows :: row == rows[0] || row in rows[1..];
      if IsValid(rows[0], topic, clock).Null? then [rows[0]] + rest else rest
  }

  /** The first filter keeps exactly the rows whose flag is TRUE, the second those whose flag is FALSE. */
  lemma {:induction false} FiltersExactly(rows: seq<Row>, topic: string, clock: Clock)
    ensures forall row :: row in ValidRows(rows, topic, clock) <==> row in rows && IsValid(row, topic, clock).True?
    ensures forall row :: row in InvalidRows(rows, topic, clock) <==> row in rows && IsValid(row, topic, clock).False?
  {
    hide IsValid;
    if rows != [] {
      FiltersExactly(rows[1..], topic, clock);
      assert forall row :: row in rows <==> row == rows[0] || row in rows[1..];
    }
  }

  /** A batch is the valid rows, the invalid rows and the undecided rows. */
  lemma {:induction false} ThreeWaySplit(rows: seq<Row>, topic: string, clock: Clock)
    ensures multiset(rows) == multiset(ValidRows(rows, topic, clock)) + multiset(InvalidRows(rows, topic, clock))
                              + multiset(UndecidedRows(rows, topic, clock))
    ensures |rows| == |ValidRows(rows, topic, clock)| + |InvalidRows(rows, topic, clock)|
                      + |UndecidedRows(rows, topic, clock)|
  {
    hide IsValid;
    if rows != [] {
      ThreeWaySplit(rows[1..], topic, clock);
      assert rows == [rows[0]] + rows[1..];
    }
  }

  /** On a covered topic the two filters partition any batch. */
  lemma {:induction false} CoveredBatchPartition(rows: seq<Row>, topic: string, columns: set<string>, clock: Clock)
    requires Covered(topic, columns) && forall row | row in rows :: Typed(row, topic, columns)
    ensures multiset(rows) == multiset(ValidRows(rows, topic, clock)) + multiset(InvalidRows(rows, topic, clock))
    ensures |rows| == |ValidRows(rows, topic, clock)| + |InvalidRows(rows, topic, clock)|
  {
    hide IsValid, Typed, Covered;
    ThreeWaySplit(rows, topic, clock);
    forall row | row in rows ensures !IsValid(row, topic, clock).Null? {
      CoveredNeverNull(topic, columns, row, clock);
    }
    assert UndecidedRows(rows, topic, clock) == [];
  }

  // ------------------------------------------------------------------ the quality event

  datatype Counts = Counts(input: nat, dropped: nat, parseErrors: nat, nullCritical: nat, parsed: int)

  function CountLabel(rows: seq<Row>, topic: string, clock: Clock, text: string): nat {
    if rows == [] then 0
    else CountLabel(rows[1..], topic, clock, text) + if Label(rows[0], topic, clock) == Some(text) then 1 else 0
  }

  function CountParseErrors(rows: seq<Row>): nat {
    if rows == [] then 0
    else CountParseErrors(rows[1..]) + if Status(rows[0]) == Some("parse_error") then 1 else 0
  }

  /** The counts of `build_quality_event`. */
  function Summary(rows: seq<Row>, topic: string, clock: Clock): Counts {
    Counts(|rows|, |InvalidRows(rows, topic, clock)|, CountParseErrors(rows),
           CountLabel(rows, topic, clock, "null_critical"), |rows| - CountParseErrors(rows))
  }

  /** What one row adds to the counts of a batch. */
  lemma SummaryOfOne(row: Row, topic: string, clock: Clock)
    ensures var s, unparsed := Summary([row], topic, clock), Status(row) == Some("parse_error");
            && s.input == 1 && (s.dropped == if IsValid(row, topic, clock).False? then 1 else 0)
            && (s.parseErrors == if unparsed then 1 else 0) && (s.parsed == if unparsed then 0 else 1)
            && (s.nullCritical == if Label(row, topic, clock) == Some("null_critical") then 1 else 0)
  {
    hide IsValid, Label, Status;
    assert [row][1..] == [];
    assert CountParseErrors([]) == 0 == CountLabel([], topic, clock, "null_critical");
  }

  /** The counts of two batches together are the sums of their counts. */
  lemma {:induction false} SummaryAppend(a: seq<Row>, b: seq<Row>, topic: string, clock: Clock)
    ensures var s, x, y := Summary(a + b, topic, clock), Summary(a, topic, clock), Summary(b, topic, clock);
            s == Counts(x.input + y.input, x.dropped + y.dropped, x.parseErrors + y.parseErrors,
                        x.nullCritical + y.nullCritical, x.parsed + y.parsed)
    decreases |a|
  {
    hide IsValid, Label, Status;
    if a == [] {
      assert a + b == b;
    } else {
      assert (a + b)[1..] == a[1..] + b;
      SummaryAppend(a[1..], b, topic, clock);
    }
  }

  /** The metadata columns as every reader writes them. */
  predicate FromReader(row: Row) {
    || (row.status == Holds(Some("ok")) && row.error == Holds(None))
    || (row.status == Holds(Some("parse_error")) && row.error == Holds(Some("malformed_json")))
  }

  function One(b: bool): nat {
    if b then 1 else 0
  }

  /** A dropped row is counted under exactly one reason, and no other row is counted. */
  lemma OneReason(row: Row, topic: string, clock: Clock)
    requires FromReader(row)
    ensures One(IsValid(row, topic, clock).False?)
            == One(Status(row) == Some("parse_error")) + One(Label(row, topic, clock) == Some("null_critical"))
               + One(Label(row, topic, clock) == Some("negative_value"))
               + One(Label(row, topic, clock) == Some("bid_ask_inverted"))
               + One(Label(row, topic, clock) == Some("event_time_lag"))
  {
    var k := FirstTrue(Conditions(row, topic, clock));
    ReaderLabel(row, topic, clock);
    FlagMeaning(row, topic, clock);
    hide IsValid, Conditions, Label, Status, FromReader, FirstTrue, ReasonText;
    OneText(k, Label(row, topic, clock));
    TrueIsFirst(Conditions(row, topic, clock));
  }

  lemma TrueIsFirst(cs: seq<Tri>)
    ensures True in cs <==> FirstTrue(cs) < |cs|
  {
    hide FirstTrue;
    assert cs[..|cs|] == cs;
  }

  /** The first TRUE condition decides the label, and it is the parse condition exactly for parse errors. */
  lemma ReaderLabel(row: Row, topic: string, clock: Clock)
    requires FromReader(row)
    ensures var k := FirstTrue(Conditions(row, topic, clock));
            (k == 0 <==> Status(row) == Some("parse_error")) && Label(row, topic, clock) == ReasonText(k)
  {
    var cs := Conditions(row, topic, clock);
    var k := FirstTrue(cs);
    assert cs[0] == NotOk(row);
    ReaderStatus(row);
    ReaderReasons(row);
    hide Conditions, Reasons, ParseError, Status, NotOk, FromReader, FirstTrue;
    assert k > 0 ==> cs[..k][0] == cs[0];
  }

  /** A reader's row is a parse error or has no error yet. */
  lemma ReaderStatus(row: Row)
    requires FromReader(row)
    ensures NotOk(row) == Bool(Status(row) == Some("parse_error"))
    ensures ParseError(row) == if Status(row) == Some("parse_error") then Some("malformed_json") else None
  {
    assert |"ok"| == 2 && |"parse_error"| == 11;
  }

  /** The text that goes with the first TRUE condition of a reader's row. */
  function ReasonText(k: nat): Option<string> {
    if k == 0 then Some("malformed_json")
    else if k == 1 then Some("null_critical")
    else if k == 2 then Some("negative_value")
    else if k == 3 then Some("bid_ask_inverted")
    else if k == 4 then Some("event_time_lag")
    else None
  }

  lemma ReaderReasons(row: Row)
    requires FromReader(row)
    ensures forall k | 1 <= k < 5 :: Reasons(row)[k] == ReasonText(k)
    ensures Status(row) == Some("parse_error") ==> Reasons(row)[0] == ReasonText(0)
    ensures Status(row) != Some("parse_error") ==> ParseError(row) == None
  {
    ReaderStatus(row);
  }

  lemma OneText(k: nat, reason: Option<string>)
    requires reason == ReasonText(k)
    ensures One(reason == Some("null_critical")) + One(reason == Some("negative_value"))
            + One(reason == Some("bid_ask_inverted")) + One(reason == Some("event_time_lag")) == One(1 <= k < 5)
  {
    assert |"null_critical"| == 13 && |"bid_ask_inverted"| == 16;
    assert "negative_value"[0] == 'n' && "event_time_lag"[0] == 'e' && "malformed_json"[0] == 'm';
  }

  /** The dropped rows are the parse errors plus the rows of each of the four labels. */
  lemma {:induction false} DroppedByReason(rows: seq<Row>, topic: string, clock: Clock)
    requires forall row | row in rows :: FromReader(row)
    ensures Summary(rows, topic, clock).dropped
            == Summary(rows, topic, clock).parseErrors + Summary(rows, topic, clock).nullCritical
               + CountLabel(rows, topic, clock, "negative_value")
               + CountLabel(rows, topic, clock, "bid_ask_inverted") + CountLabel(rows, topic, clock, "event_time_lag")
  {
    hide IsValid, Label, Status;
    if rows != [] {
      OneReason(rows[0], topic, clock);
      DroppedByReason(rows[1..], topic, clock);
    }
  }

  /** The row counts of a quality event add up, for any batch a reader delivered on a covered topic. */
  lemma {:induction false} SummaryAgrees(rows: seq<Row>, topic: string, columns: set<string>, clock: Clock)
    requires forall row | row in rows :: FromReader(row)
    ensures var s := Summary(rows, topic, clock);
            && s.parseErrors + s.nullCritical <= s.dropped
            && s.dropped + |ValidRows(rows, topic, clock)| <= s.input
            && s.dropped <= s.input && 0 <= s.parsed
    ensures Covered(topic, columns) && (forall row | row in rows :: Typed(row, topic, columns)) ==>
              Summary(rows, topic, clock).input
              == |ValidRows(rows, topic, clock)| + Summary(rows, topic, clock).dropped
  {
    hide IsValid, Label, Status, Typed, Covered, FromReader;
    DroppedByReason(rows, topic, clock);
    ThreeWaySplit(rows, topic, clock);
    if Covered(topic, columns) && (forall row | row in rows :: Typed(row, topic, columns)) {
      CoveredBatchPartition(rows, topic, columns, clock);
    }
  }
}
