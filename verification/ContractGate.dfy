/**
  From the collector to Spark: what the quality gate can still object to in an accepted book ticker.
*/
module ContractGate {
  import opened PyText
  import opened ContractValidation
  import ContractTotality
  import QualityGate
  import QualityRules

  /** Spark's cast to double reads the finite number that Python reads. */
  predicate ReadsAs(py: Texts, v: Value, cell: QualityGate.Cell) {
    cell.Number? && AsFloat(py, v) == Some(Finite(cell.value))
  }

  /** The row is what Spark's reader makes of the collector's message. */
  predicate RowOf(py: Texts, p: Payload, ts: int, topic: string, row: QualityGate.Row) {
    && row.cells.Keys == QualityGate.ReaderColumns(topic)
    && QualityGate.Status(row) == Some("ok") && QualityGate.ParseError(row) == None
    && QualityRules.Filled(row, "symbol")
    && "event_time_sec" in row.cells && row.cells["event_time_sec"] == QualityGate.Number(ts as real / 1000.0)
    && "bid_price" in row.cells && ReadsAs(py, Get(p, "b"), row.cells["bid_price"])
    && "ask_price" in row.cells && ReadsAs(py, Get(p, "a"), row.cells["ask_price"])
  }

  /** The prices of an accepted book ticker are positive and in order exactly when neither is NaN. */
  lemma AcceptedPrices(py: Texts, p: Payload, ts: int)
    requires Validate(py, ContractTotality.BOOKTICKER, p, ts).Accepted?
    ensures AsFloat(py, Get(p, "b")).Some? && AsFloat(py, Get(p, "a")).Some?
    ensures var bid, ask := AsFloat(py, Get(p, "b")).value, AsFloat(py, Get(p, "a")).value;
            ZERO.Below(bid) && bid.AtMost(ask) <==> !bid.NaN? && !ask.NaN?
  {
    var c := ContractTotality.BOOKTICKER;
    AcceptedExactly(py, c, p, ts);
    hide AsFloat, Get, FieldsPass, Validate;
    assert RuleHolds(py, p, c.rules[0]) && RuleHolds(py, p, c.rules[1]) && RuleHolds(py, p, c.rules[2]);
  }

  /** An accepted book ticker is never labelled null, negative or inverted: the gate passes it exactly
      when the collector's time is within the lag limits. */
  lemma AcceptedBookTicker(py: Texts, p: Payload, ts: int, topic: string, clock: QualityGate.Clock,
                           row: QualityGate.Row)
    requires Validate(py, ContractTotality.BOOKTICKER, p, ts).Accepted? && ts > 0
    requires topic == "binance-bookticker" || topic == "spot-bookticker"
    requires RowOf(py, p, ts, topic, row)
    ensures var onTime := -clock.future <= clock.now - ts <= clock.late;
            && (QualityGate.IsValid(row, topic, clock).True? <==> onTime)
            && (QualityGate.IsValid(row, topic, clock).False? <==> !onTime)
            && QualityGate.Label(row, topic, clock) == if onTime then None else Some("event_time_lag")
  {
    AcceptedPrices(py, p, ts);
    PositiveRow(ts, topic, clock, row);
  }

  lemma PositiveRow(ts: int, topic: string, clock: QualityGate.Clock, row: QualityGate.Row)
    requires ts > 0 && (topic == "binance-bookticker" || topic == "spot-bookticker")
    requires row.cells.Keys == QualityGate.ReaderColumns(topic)
    requires QualityGate.Status(row) == Some("ok") && QualityGate.ParseError(row) == None
    requires QualityRules.Filled(row, "symbol")
    requires "event_time_sec" in row.cells && row.cells["event_time_sec"] == QualityGate.Number(ts as real / 1000.0)
    requires "bid_price" in row.cells && "ask_price" in row.cells
    requires row.cells["bid_price"].Number? && row.cells["ask_price"].Number?
    requires 0.0 < row.cells["bid_price"].value <= row.cells["ask_price"].value
    ensures var onTime := -clock.future <= clock.now - ts <= clock.late;
            && (QualityGate.IsValid(row, topic, clock).True? <==> onTime)
            && (QualityGate.IsValid(row, topic, clock).False? <==> !onTime)
            && QualityGate.Label(row, topic, clock) == if onTime then None else Some("event_time_lag")
  {
    assert ts as real / 1000.0 * 1000.0 == ts as real;
    assert QualityRules.OnTime(row, clock) <==> -clock.future <= clock.now - ts <= clock.late;
    assert QualityRules.Sound(row, topic) by {
      hide QualityGate.ReaderColumns, QualityRules.SoundVolumes;
      assert topic != "binance-markprice" && topic != "binance-openinterest" && topic != "rollup-trade-cvd-1s";
    }
    assert topic in QualityGate.HOT_PATH_TOPICS;
    hide *;
    QualityRules.SoundParts(row, topic);
    QualityRules.ValidExactly(row, topic, clock);
    QualityRules.FaultLabelled(row, topic, clock);
    Unfaulted(row, topic);
  }

  /** Soundness excludes the faults of a column. */
  lemma Unfaulted(row: QualityGate.Row, topic: string)
    requires forall n | QualityRules.Signed(topic, n) && n in row.cells :: QualityRules.AtLeastZero(row, n)
    ensures !exists n :: QualityRules.Signed(topic, n) && QualityRules.BelowZero(row, n)
    ensures QualityRules.InOrder(row) ==> !QualityRules.OutOfOrder(row)
  {
    hide QualityRules.Signed;
  }
}
