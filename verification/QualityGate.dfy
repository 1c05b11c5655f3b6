/**
  The Spark data quality gate: classification of one row under SQL's three-valued logic, the
  split of a batch into valid and invalid rows, and the counts of the quality event.
*/
module QualityGate {
  import opened PyText

  // ------------------------------------------------------------------ three-valued logic

  datatype Tri = True | False | Null {
    function Not(): Tri {
      match this case True => False case False => True case Null => Null
    }

    function And(that: Tri): Tri {
      if False? || that.False? then False else if Null? || that.Null? then Null else True
    }

    function Or(that: Tri): Tri {
      if True? || that.True? then True else if Null? || that.Null? then Null else False
    }
  }

  function Bool(b: bool): Tri {
    if b then True else False
  }

  /** `_or_all`: the expressions joined from the left, FALSE for none. */
  function OrAll(es: seq<Tri>): (r: Tri)
    ensures r.True? <==> True in es
    ensures r.Null? <==> True !in es && Null in es
  {
    if es == [] then False else OrAll(es[..|es| - 1]).Or(es[|es| - 1])
  }

  /** `_and_all`: TRUE for none. */
  function AndAll(es: seq<Tri>): (r: Tri)
    ensures r.False? <==> False in es
    ensures r.Null? <==> False !in es && Null in es
  {
    if es == [] then True else AndAll(es[..|es| - 1]).And(es[|es| - 1])
  }

  // ------------------------------------------------------------------ rows

  /** `Opaque` is a value that is not NULL but whose cast to double is. */
  datatype Cell = NullCell | Number(value: real) | Opaque

  /** A column of text that the frame may lack; where it exists it may be NULL. */
  datatype Column = Missing | Holds(text: Option<string>)

  /** One row before the gate.  `malformed` says that a column `_j` exists and is NULL. */
  datatype Row = Row(cells: map<string, Cell>, malformed: bool, status: Column, error: Column)

  /** `_parse_status` after the gate has supplied it. */
  function Status(row: Row): Option<string> {
    match row.status
    case Holds(text) => text
    case Missing => Some(if row.malformed then "parse_error" else "ok")
  }

  /** `_parse_error` before the gate labels the row. */
  function ParseError(row: Row): Option<string> {
    match row.error
    case Holds(text) => text
    case Missing => if Status(row) == Some("parse_error") then Some("malformed_json") else None
  }

  function AsDouble(c: Cell): Option<real> {
    match c case Number(v) => Some(v) case NullCell => None case Opaque => None
  }

  function Less(a: Option<real>, b: Option<real>): Tri {
    if a.Some? && b.Some? then Bool(a.value < b.value) else Null
  }

  /** `cast("long")`: towards zero. */
  function Truncate(x: real): int {
    if x >= 0.0 then x.Floor else -((-x).Floor)
  }

  function EventMs(row: Row): Option<int> {
    if "event_time_sec" in row.cells then
      match AsDouble(row.cells["event_time_sec"])
      case Some(v) => Some(Truncate(v * 1000.0))
      case None => None
    else if "event_time_ms" in row.cells then
      match AsDouble(row.cells["event_time_ms"])
      case Some(v) => Some(Truncate(v))
      case None => None
    else None
  }

  // ------------------------------------------------------------------ the topic tables

  const HOT_PATH_TOPICS := {
    "binance-trade", "spot-trade", "binance-bookticker", "spot-bookticker", "binance-markprice",
    "binance-openinterest", "rollup-trade-cvd-1s", "rollup-bookticker-1s", "binance-ticker"}

  function CriticalColumns(topic: string): seq<string> {
    if topic == "binance-trade" || topic == "spot-trade" then ["symbol", "price", "quantity", "event_time_sec"]
    else if topic == "binance-bookticker" || topic == "spot-bookticker" || topic == "rollup-bookticker-1s" then
      ["symbol", "bid_price", "ask_price", "event_time_sec"]
    else if topic == "binance-markprice" then
      ["symbol", "mark_price", "funding_rate", "index_price", "event_time_sec"]
    else if topic == "binance-openinterest" then ["symbol", "open_interest", "event_time_sec"]
    else if topic == "rollup-trade-cvd-1s" || topic == "binance-ticker" then ["symbol", "event_time_sec"]
    else []
  }

  function NonNegativeColumns(topic: string): seq<string> {
    if topic == "binance-trade" || topic == "spot-trade" then ["price", "quantity"]
    else if topic == "binance-bookticker" || topic == "spot-bookticker" then ["bid_price", "ask_price"]
    else if topic == "binance-markprice" then ["mark_price", "index_price"]
    else if topic == "binance-openinterest" then ["open_interest"]
    else if topic == "rollup-trade-cvd-1s" then
      ["futures_taker_buy_qty", "futures_taker_sell_qty", "futures_trade_count", "spot_taker_buy_qty",
       "spot_taker_sell_qty", "spot_trade_count", "whale_buy_count", "whale_sell_count", "whale_buy_qty",
       "whale_sell_qty"]
    else if topic == "rollup-bookticker-1s" then ["bid_price", "ask_price", "message_count"]
    else []
  }

  // ------------------------------------------------------------------ the gate on one row

  /** `now_ms` and the two lag limits. */
  datatype Clock = Clock(now: int, late: int, future: int)

  function NullChecks(row: Row, names: seq<string>): (r: seq<Tri>)
    ensures Null !in r
    ensures True in r <==> exists n :: n in names && n in row.cells && row.cells[n].NullCell?
  {
    if names == [] then []
    else
      var n := names[|names| - 1];
      var rest := NullChecks(row, names[..|names| - 1]);
      assert names == names[..|names| - 1] + [n];
      if n in row.cells then rest + [Bool(row.cells[n].NullCell?)] else rest
  }

  function SignChecks(row: Row, names: seq<string>): (r: seq<Tri>)
    ensures True in r <==>
            exists n :: n in names && n in row.cells && row.cells[n].Number? && row.cells[n].value < 0.0
    ensures Null in r <==> exists n :: n in names && n in row.cells && !row.cells[n].Number?
  {
    if names == [] then []
    else
      var n := names[|names| - 1];
      var rest := SignChecks(row, names[..|names| - 1]);
      assert names == names[..|names| - 1] + [n];
      if n in row.cells then rest + [Less(AsDouble(row.cells[n]), Some(0.0))] else rest
  }

  function Inverted(row: Row): Tri {
    if "bid_price" in row.cells && "ask_price" in row.cells then
      Less(AsDouble(row.cells["ask_price"]), AsDouble(row.cells["bid_price"]))
    else False
  }

  function LagBad(row: Row, clock: Clock): (r: Tri)
    ensures !r.Null?
  {
    match EventMs(row)
    case None => False.And(Null.Or(Null))
    case Some(ms) => True.And(Bool(clock.now - ms > clock.late).Or(Bool(clock.now - ms < -clock.future)))
  }

  function NotOk(row: Row): Tri {
    match Status(row)
    case None => Null
    case Some(s) => Bool(s != "ok")
  }

  /** The five conditions, in the order of `invalid_reasons`. */
  function Conditions(row: Row, topic: string, clock: Clock): (cs: seq<Tri>)
    ensures |cs| == 5
  {
    [NotOk(row), OrAll(NullChecks(row, CriticalColumns(topic))), OrAll(SignChecks(row, NonNegativeColumns(topic))),
     Inverted(row), LagBad(row, clock)]
  }

  /** The label that goes with each condition. */
  function Reasons(row: Row): (rs: seq<Option<string>>)
    ensures |rs| == 5
  {
    [Some(match ParseError(row) case Some(e) => e case None => "parse_error"),
     Some("null_critical"), Some("negative_value"), Some("bid_ask_inverted"), Some("event_time_lag")]
  }

  /** The position of the earliest TRUE condition. */
  function FirstTrue(cs: seq<Tri>): (k: nat)
    ensures k <= |cs| && True !in cs[..k]
    ensures k < |cs| ==> cs[k].True?
  {
    if cs == [] || cs[0].True? then 0
    else
      var k := FirstTrue(cs[1..]);
      assert cs[..k + 1] == [cs[0]] + cs[1..][..k];
      k + 1
  }

  /** `_parse_error` after the gate: the reason of the earliest TRUE condition. */
  function Label(row: Row, topic: string, clock: Clock): Option<string> {
    var k := FirstTrue(Conditions(row, topic, clock));
    if k < 5 then Reasons(row)[k] else ParseError(row)
  }

  function Negated(cs: seq<Tri>): (r: seq<Tri>)
    ensures |r| == |cs|
    ensures forall k | 0 <= k < |cs| :: r[k] == cs[k].Not()
  {
    seq(|cs|, k requires 0 <= k < |cs| => cs[k].Not())
  }

  /** `_dq_is_valid`. */
  function IsValid(row: Row, topic: string, clock: Clock): Tri {
    AndAll(Negated(Conditions(row, topic, clock)))
  }

  /** The gate as it builds its columns: the reversed CASE fold and the conjunction. */
  method ApplyQualityGate(row: Row, topic: string, clock: Clock) returns (reason: Option<string>, valid: Tri)
    ensures reason == Label(row, topic, clock)
    ensures valid == IsValid(row, topic, clock)
  {
    var conditions, reasons := Conditions(row, topic, clock), Reasons(row);
    reason := ParseError(row);
    hide Conditions, Reasons, ParseError;
    for k := |conditions| downto 0
      invariant reason == var f := FirstTrue(conditions[k..]);
                         if k + f < 5 then reasons[k + f] else ParseError(row)
    {
      assert conditions[k..][1..] == conditions[k + 1..];
      if conditions[k].True? {
        reason := reasons[k];
      }
    }
    assert conditions[0..] == conditions;
    valid := AndAll(Negated(conditions));
  }

  // ------------------------------------------------------------------ what the flag says

  /** FALSE says that some condition is TRUE, TRUE that all are FALSE. */
  lemma FlagMeaning(row: Row, topic: string, clock: Clock)
    ensures IsValid(row, topic, clock).False? <==> True in Conditions(row, topic, clock)
    ensures IsValid(row, topic, clock).True? <==> forall c | c in Conditions(row, topic, clock) :: c.False?
  {
    var cs := Conditions(row, topic, clock);
    var ns := Negated(cs);
    assert forall k | 0 <= k < 5 :: ns[k] == cs[k].Not() && cs[k] in cs && ns[k] in ns;
  }

  /** What a valid row guarantees to the aggregation. */
  lemma ValidRowMeans(row: Row, topic: string, clock: Clock)
    requires IsValid(row, topic, clock).True?
    ensures Status(row) == Some("ok")
    ensures forall n | n in CriticalColumns(topic) && n in row.cells :: !row.cells[n].NullCell?
    ensures forall n | n in NonNegativeColumns(topic) && n in row.cells ::
              row.cells[n].Number? && row.cells[n].value >= 0.0
    ensures "bid_price" in row.cells && "ask_price" in row.cells ==>
              && row.cells["bid_price"].Number? && row.cells["ask_price"].Number?
              && row.cells["bid_price"].value <= row.cells["ask_price"].value
  {
    hide CriticalColumns, NonNegativeColumns, IsValid, LagBad;
    FlagMeaning(row, topic, clock);
    var cs := Conditions(row, topic, clock);
    assert cs[0] in cs && cs[1] in cs && cs[2] in cs && cs[3] in cs;
    assert True !in SignChecks(row, NonNegativeColumns(topic));
  }

  /** A row is in neither half exactly when no condition is TRUE and something compared is NULL. */
  lemma FlagNull(row: Row, topic: string, clock: Clock)
    ensures IsValid(row, topic, clock).Null? <==>
            && True !in Conditions(row, topic, clock)
            && (|| Status(row).None?
                || (exists n :: n in NonNegativeColumns(topic) && n in row.cells && !row.cells[n].Number?)
                || ("bid_price" in row.cells && "ask_price" in row.cells
                    && !(row.cells["bid_price"].Number? && row.cells["ask_price"].Number?)))
  {
    FlagMeaning(row, topic, clock);
    var cs := Conditions(row, topic, clock);
    assert cs == [cs[0], cs[1], cs[2], cs[3], cs[4]];
  }

  // ------------------------------------------------------------------ which topics partition

  /** A row of a frame with the given columns whose compared columns are doubles, as the readers deliver it. */
  predicate Typed(row: Row, topic: string, columns: set<string>) {
    && row.cells.Keys == columns && Status(row).Some?
    && forall n | n in columns && (n in NonNegativeColumns(topic) || n in {"bid_price", "ask_price"}) ::
        !row.cells[n].Opaque?
  }

  /** Every column the gate compares is critical. */
  predicate Covered(topic: string, columns: set<string>) {
    && (forall n | n in NonNegativeColumns(topic) && n in columns :: n in CriticalColumns(topic))
    && ("bid_price" in columns && "ask_price" in columns ==>
        "bid_price" in CriticalColumns(topic) && "ask_price" in CriticalColumns(topic))
  }

  lemma TimeNeverCompared(topic: string, time: string)
    requires time == "event_time_sec" || time == "event_time_ms"
    ensures time !in NonNegativeColumns(topic)
  {
  }

  lemma CoveredNeverNull(topic: string, columns: set<string>, row: Row, clock: Clock)
    requires Covered(topic, columns) && Typed(row, topic, columns)
    ensures !IsValid(row, topic, clock).Null?
  {
    hide CriticalColumns, NonNegativeColumns;
    FlagNull(row, topic, clock);
    var cs := Conditions(row, topic, clock);
    assert cs[1] in cs;
    if exists n :: n in CriticalColumns(topic) && n in row.cells && row.cells[n].NullCell? {
      assert cs[1].True?;
    }
  }

  /** A row of harmless values, NULL in one column. */
  function Harmless(columns: set<string>, hole: string, clock: Clock): Row {
    Row(map n | n in columns :: if n == hole then NullCell
                                else if n == "event_time_sec" then Number(clock.now as real / 1000.0)
                                else if n == "event_time_ms" then Number(clock.now as real)
                                else Number(0.0),
        false, Holds(Some("ok")), Holds(None))
  }

  /** A hole in a compared column that is not critical puts the harmless row in neither half. */
  lemma UncoveredHasNull(topic: string, columns: set<string>, hole: string, clock: Clock)
    requires clock.late >= 0 && clock.future >= 0
    requires hole in columns && hole !in CriticalColumns(topic) && hole != "event_time_sec" && hole != "event_time_ms"
    requires || hole in NonNegativeColumns(topic)
             || (hole in {"bid_price", "ask_price"} && {"bid_price", "ask_price"} <= columns)
    ensures IsValid(Harmless(columns, hole, clock), topic, clock).Null?
  {
    HarmlessClean(topic, columns, hole, clock);
    assert Harmless(columns, hole, clock).cells.Keys == columns
        && Harmless(columns, hole, clock).cells[hole] == NullCell;
    hide CriticalColumns, NonNegativeColumns, Conditions, IsValid, Harmless;
    FlagNull(Harmless(columns, hole, clock), topic, clock);
  }

  /** With a hole only where it may be, no condition is TRUE. */
  lemma HarmlessClean(topic: string, columns: set<string>, hole: string, clock: Clock)
    requires clock.late >= 0 && clock.future >= 0
    requires hole !in CriticalColumns(topic) && hole != "event_time_sec" && hole != "event_time_ms"
    ensures True !in Conditions(Harmless(columns, hole, clock), topic, clock)
  {
    hide CriticalColumns, NonNegativeColumns, LagBad, Truncate;
    var row := Harmless(columns, hole, clock);
    TimeNeverCompared(topic, "event_time_sec");
    TimeNeverCompared(topic, "event_time_ms");
    HarmlessOnTime(columns, hole, clock);
    HarmlessNotNegative(columns, hole, clock, NonNegativeColumns(topic));
    assert NotOk(row).False? && !Inverted(row).True?;
    assert True !in NullChecks(row, CriticalColumns(topic));
    hide Harmless, NotOk, Inverted, NullChecks, SignChecks;
  }

  lemma HarmlessOnTime(columns: set<string>, hole: string, clock: Clock)
    requires clock.late >= 0 && clock.future >= 0 && hole != "event_time_sec" && hole != "event_time_ms"
    ensures LagBad(Harmless(columns, hole, clock), clock).False?
  {
    var now := clock.now as real;
    assert now / 1000.0 * 1000.0 == now;
    assert Truncate(now) == clock.now by {
      assert (-now) == (-clock.now) as real;
    }
  }

  lemma {:induction false} HarmlessNotNegative(columns: set<string>, hole: string, clock: Clock, names: seq<string>)
    requires "event_time_sec" !in names && "event_time_ms" !in names
    ensures True !in SignChecks(Harmless(columns, hole, clock), names)
  {
  }

  /** For a topic and the columns of its frame: no row falls between the halves exactly when every
      compared column is critical. */
  lemma PartitionIffCovered(topic: string, columns: set<string>, clock: Clock)
    requires clock.late >= 0 && clock.future >= 0
    ensures Covered(topic, columns)
            <==> forall row | Typed(row, topic, columns) :: !IsValid(row, topic, clock).Null?
  {
    hide CriticalColumns, NonNegativeColumns, IsValid, Conditions;
    if Covered(topic, columns) {
      forall row | Typed(row, topic, columns) ensures !IsValid(row, topic, clock).Null? {
        CoveredNeverNull(topic, columns, row, clock);
      }
    } else {
      TimeNeverCompared(topic, "event_time_sec");
      TimeNeverCompared(topic, "event_time_ms");
      var hole :|
        && hole in columns && hole !in CriticalColumns(topic)
        && (|| hole in NonNegativeColumns(topic)
            || (hole in {"bid_price", "ask_price"} && {"bid_price", "ask_price"} <= columns));
      var row := Harmless(columns, hole, clock);
      assert Typed(row, topic, columns);
      UncoveredHasNull(topic, columns, hole, clock);
    }
  }

  /** The data columns that the reader of each hot topic produces. */
  function ReaderColumns(topic: string): set<string> {
    if topic == "binance-trade" || topic == "spot-trade" then
      {"symbol", "price", "quantity", "event_time_sec", "is_buyer_maker", "source"}
    else if topic == "binance-bookticker" || topic == "spot-bookticker" then
      {"symbol", "bid_price", "ask_price", "event_time_sec"}
    else if topic == "binance-markprice" then
      {"symbol", "mark_price", "funding_rate", "index_price", "next_funding_time_sec", "event_time_sec"}
    else if topic == "binance-openinterest" then {"symbol", "open_interest", "event_time_sec"}
    else if topic == "rollup-trade-cvd-1s" then
      {"symbol", "source", "event_time_sec", "futures_taker_buy_qty", "futures_taker_sell_qty",
       "futures_trade_count", "spot_taker_buy_qty", "spot_taker_sell_qty", "spot_trade_count",
       "whale_buy_count", "whale_sell_count", "whale_buy_qty", "whale_sell_qty"}
    else if topic == "rollup-bookticker-1s" then
      {"symbol", "market", "bid_price", "ask_price", "event_time_sec", "message_count"}
    else
      {"symbol", "price_change_pct", "weighted_avg_price", "last_price", "volume_24h", "quote_volume_24h",
       "high_24h", "low_24h", "open_price_24h", "event_time_sec"}
  }

  /** Of the hot topics, exactly the two rollup topics are not covered. */
  lemma HotTopicsCovered(topic: string)
    requires topic in HOT_PATH_TOPICS
    ensures Covered(topic, ReaderColumns(topic)) <==> topic != "rollup-trade-cvd-1s" && topic != "rollup-bookticker-1s"
  {
    if topic == "rollup-trade-cvd-1s" {
      assert "whale_buy_qty" in NonNegativeColumns(topic) && "whale_buy_qty" !in CriticalColumns(topic);
    } else if topic == "rollup-bookticker-1s" {
      assert "message_count" in NonNegativeColumns(topic) && "message_count" !in CriticalColumns(topic);
    }
  }

  /** On the rollup topics a row with nothing else wrong is in neither half as soon as one
      non-critical number is NULL. */
  lemma RollupRowInNeither(row: Row, topic: string, clock: Clock, hole: string)
    requires topic == "rollup-trade-cvd-1s" || topic == "rollup-bookticker-1s"
    requires hole in NonNegativeColumns(topic) && hole !in CriticalColumns(topic)
    requires hole in row.cells && row.cells[hole].NullCell?
    requires True !in Conditions(row, topic, clock)
    ensures IsValid(row, topic, clock).Null?
  {
    hide CriticalColumns, NonNegativeColumns, Conditions;
    FlagNull(row, topic, clock);
  }
}
