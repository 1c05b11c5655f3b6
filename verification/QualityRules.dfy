/**
  What the data quality gate demands of the rows of each hot topic, column by column, and how a row
  that breaks one of the demands is labelled.
*/
module QualityRules {
  import opened PyText
  import opened QualityGate

  predicate IsNull(row: Row, n: string) {
    n in row.cells && row.cells[n].NullCell?
  }

  predicate Filled(row: Row, n: string) {
    n in row.cells && !row.cells[n].NullCell?
  }

  predicate AtLeastZero(row: Row, n: string) {
    n in row.cells && row.cells[n].Number? && row.cells[n].value >= 0.0
  }

  predicate BelowZero(row: Row, n: string) {
    n in row.cells && row.cells[n].Number? && row.cells[n].value < 0.0
  }

  predicate Trades(topic: string) {
    topic == "binance-trade" || topic == "spot-trade"
  }

  predicate Quotes(topic: string) {
    topic == "binance-bookticker" || topic == "spot-bookticker" || topic == "rollup-bookticker-1s"
  }

  predicate QuoteRollups(topic: string) {
    topic == "rollup-bookticker-1s"
  }

  predicate MarkPrices(topic: string) {
    topic == "binance-markprice"
  }

  predicate OpenInterest(topic: string) {
    topic == "binance-openinterest"
  }

  predicate TradeRollups(topic: string) {
    topic == "rollup-trade-cvd-1s"
  }

  /** The columns that must not be NULL. */
  predicate Needed(topic: string, n: string) {
    || n in {"symbol", "event_time_sec"}
    || (Trades(topic) && n in {"price", "quantity"})
    || (Quotes(topic) && n in {"bid_price", "ask_price"})
    || (MarkPrices(topic) && n in {"mark_price", "funding_rate", "index_price"})
    || (OpenInterest(topic) && n == "open_interest")
  }

  /** The columns that must be numbers and not negative. */
  predicate Signed(topic: string, n: string) {
    || (Trades(topic) && n in {"price", "quantity"})
    || (Quotes(topic) && n in {"bid_price", "ask_price"})
    || (QuoteRollups(topic) && n == "message_count")
    || (MarkPrices(topic) && n in {"mark_price", "index_price"})
    || (OpenInterest(topic) && n == "open_interest")
    || (TradeRollups(topic) && Volume(n))
  }

  /** The sums in a trade rollup. */
  predicate Volume(n: string) {
    n in {"futures_taker_buy_qty", "futures_taker_sell_qty", "futures_trade_count", "spot_taker_buy_qty",
          "spot_taker_sell_qty", "spot_trade_count", "whale_buy_count", "whale_sell_count", "whale_buy_qty",
          "whale_sell_qty"}
  }

  lemma NeededExactly(topic: string, n: string)
    requires topic in HOT_PATH_TOPICS
    ensures n in CriticalColumns(topic) <==> Needed(topic, n)
  {
  }

  lemma SignedExactly(topic: string, n: string)
    requires topic in HOT_PATH_TOPICS
    ensures n in NonNegativeColumns(topic) <==> Signed(topic, n)
  {
    if TradeRollups(topic) {
      VolumesExactly(n);
    }
    hide Volume;
  }

  lemma VolumesExactly(n: string)
    ensures n in NonNegativeColumns("rollup-trade-cvd-1s") <==> Volume(n)
  {
  }

  /** `cast("long")` of a number of milliseconds. */
  lemma TruncateMeans(x: real, k: int)
    ensures Truncate(x) == k
        <==> if x >= 0.0 then k as real <= x < k as real + 1.0 else k as real - 1.0 < x <= k as real
  {
    assert (-k) as real == -(k as real);
  }

  /** The time, where it is a number, is neither too old nor too far ahead. */
  predicate OnTime(row: Row, clock: Clock) {
    "event_time_sec" in row.cells && row.cells["event_time_sec"].Number? ==>
      -clock.future <= clock.now - Truncate(row.cells["event_time_sec"].value * 1000.0) <= clock.late
  }

  /** Whatever the columns: the time that is compared is that of `event_time_sec`, in milliseconds, or
      without that column that of `event_time_ms`; without a time the row is on time. */
  lemma TimeSources(row: Row, clock: Clock)
    ensures var sec, ms := "event_time_sec", "event_time_ms";
            LagBad(row, clock).True? <==>
              if sec in row.cells then
                row.cells[sec].Number?
                && !(-clock.future <= clock.now - Truncate(row.cells[sec].value * 1000.0) <= clock.late)
              else
                ms in row.cells && row.cells[ms].Number?
                && !(-clock.future <= clock.now - Truncate(row.cells[ms].value) <= clock.late)
  {
    hide Truncate;
  }

  predicate InOrder(row: Row) {
    "bid_price" in row.cells && "ask_price" in row.cells ==>
      row.cells["bid_price"].Number? && row.cells["ask_price"].Number?
      && row.cells["bid_price"].value <= row.cells["ask_price"].value
  }

  predicate OutOfOrder(row: Row) {
    && "bid_price" in row.cells && "ask_price" in row.cells
    && row.cells["bid_price"].Number? && row.cells["ask_price"].Number?
    && row.cells["bid_price"].value > row.cells["ask_price"].value
  }

  // ------------------------------------------------------------------ the conditions one by one

  lemma StatusCondition(row: Row, topic: string, clock: Clock)
    ensures var c := Conditions(row, topic, clock)[0];
            && (c.True? <==> Status(row).Some? && Status(row) != Some("ok"))
            && (c.False? <==> Status(row) == Some("ok"))
  {
    hide NullChecks, SignChecks, CriticalColumns, NonNegativeColumns, Inverted, LagBad;
  }

  lemma NullCondition(row: Row, topic: string, clock: Clock)
    requires topic in HOT_PATH_TOPICS
    ensures var c := Conditions(row, topic, clock)[1];
            && (c.True? <==> exists n :: Needed(topic, n) && IsNull(row, n)) && !c.Null?
  {
    forall n ensures n in CriticalColumns(topic) <==> Needed(topic, n) {
      NeededExactly(topic, n);
    }
    hide SignChecks, CriticalColumns, NonNegativeColumns, Inverted, LagBad, NotOk, Needed, HOT_PATH_TOPICS;
    var checks := NullChecks(row, CriticalColumns(topic));
    assert Conditions(row, topic, clock)[1] == OrAll(checks);
    if n :| Needed(topic, n) && IsNull(row, n) {
      assert n in CriticalColumns(topic) && n in row.cells && row.cells[n].NullCell?;
    }
  }

  lemma SignCondition(row: Row, topic: string, clock: Clock)
    requires topic in HOT_PATH_TOPICS
    ensures var c := Conditions(row, topic, clock)[2];
            && (c.True? <==> exists n :: Signed(topic, n) && BelowZero(row, n))
            && (c.False? <==> forall n | Signed(topic, n) && n in row.cells :: AtLeastZero(row, n))
  {
    forall n ensures n in NonNegativeColumns(topic) <==> Signed(topic, n) {
      SignedExactly(topic, n);
    }
    hide NullChecks, CriticalColumns, NonNegativeColumns, Inverted, LagBad, NotOk, Signed, HOT_PATH_TOPICS;
    var checks := SignChecks(row, NonNegativeColumns(topic));
    assert Conditions(row, topic, clock)[2] == OrAll(checks);
    if n :| Signed(topic, n) && BelowZero(row, n) {
      assert n in NonNegativeColumns(topic) && n in row.cells;
    }
    if n :| Signed(topic, n) && n in row.cells && !AtLeastZero(row, n) {
      assert n in NonNegativeColumns(topic);
    }
  }

  lemma OrderCondition(row: Row, topic: string, clock: Clock)
    ensures var c := Conditions(row, topic, clock)[3];
            && (c.True? <==> OutOfOrder(row)) && (c.False? <==> InOrder(row))
  {
    hide NullChecks, SignChecks, CriticalColumns, NonNegativeColumns, LagBad, NotOk;
  }

  lemma TimeCondition(row: Row, topic: string, clock: Clock)
    requires "event_time_sec" in row.cells
    ensures var c := Conditions(row, topic, clock)[4]; (c.True? <==> !OnTime(row, clock)) && !c.Null?
  {
    hide NullChecks, SignChecks, CriticalColumns, NonNegativeColumns, Inverted, NotOk, Truncate;
  }

  // ------------------------------------------------------------------ rows of the readers

  /** The row has its symbol and its time, and the columns of its topic are sound. */
  predicate Sound(row: Row, topic: string) {
    && Filled(row, "symbol") && Filled(row, "event_time_sec")
    && (Trades(topic) ==> AtLeastZero(row, "price") && AtLeastZero(row, "quantity"))
    && (Quotes(topic) ==> AtLeastZero(row, "bid_price") && AtLeastZero(row, "ask_price") && InOrder(row))
    && (QuoteRollups(topic) ==> AtLeastZero(row, "message_count"))
    && (MarkPrices(topic) ==>
          AtLeastZero(row, "mark_price") && AtLeastZero(row, "index_price") && Filled(row, "funding_rate"))
    && (OpenInterest(topic) ==> AtLeastZero(row, "open_interest"))
    && (TradeRollups(topic) ==> SoundVolumes(row))
  }

  predicate SoundVolumes(row: Row) {
    && AtLeastZero(row, "futures_taker_buy_qty") && AtLeastZero(row, "futures_taker_sell_qty")
    && AtLeastZero(row, "futures_trade_count") && AtLeastZero(row, "spot_taker_buy_qty")
    && AtLeastZero(row, "spot_taker_sell_qty") && AtLeastZero(row, "spot_trade_count")
    && AtLeastZero(row, "whale_buy_count") && AtLeastZero(row, "whale_sell_count")
    && AtLeastZero(row, "whale_buy_qty") && AtLeastZero(row, "whale_sell_qty")
  }

  lemma VolumesSound(row: Row)
    ensures SoundVolumes(row) <==> forall n | Volume(n) :: AtLeastZero(row, n)
  {
    hide AtLeastZero;
    if forall n | Volume(n) :: AtLeastZero(row, n) {
      assert Volume("futures_taker_buy_qty") && Volume("futures_taker_sell_qty") && Volume("futures_trade_count");
      assert Volume("spot_taker_buy_qty") && Volume("spot_taker_sell_qty") && Volume("spot_trade_count");
      assert Volume("whale_buy_count") && Volume("whale_sell_count");
      assert Volume("whale_buy_qty") && Volume("whale_sell_qty");
    }
  }

  /** The reader of a topic delivers the columns that the gate asks for, and quotes only where it does. */
  lemma ReaderHas(topic: string)
    requires topic in HOT_PATH_TOPICS
    ensures forall n | Needed(topic, n) || Signed(topic, n) :: n in ReaderColumns(topic)
    ensures "bid_price" in ReaderColumns(topic) && "ask_price" in ReaderColumns(topic) <==> Quotes(topic)
  {
    QuotesRead(topic);
    hide ReaderColumns, Needed, Signed, Quotes, HOT_PATH_TOPICS;
    forall n | Needed(topic, n) || Signed(topic, n) ensures n in ReaderColumns(topic) {
      ReaderHasColumn(topic, n);
    }
  }

  lemma QuotesRead(topic: string)
    ensures "bid_price" in ReaderColumns(topic) && "ask_price" in ReaderColumns(topic) <==> Quotes(topic)
  {
  }

  lemma ReaderHasColumn(topic: string, n: string)
    requires topic in HOT_PATH_TOPICS && (Needed(topic, n) || Signed(topic, n))
    ensures n in ReaderColumns(topic)
  {
  }

  /** Soundness is that no needed column is NULL, the signed ones are not negative, and quotes are in order. */
  lemma SoundParts(row: Row, topic: string)
    requires topic in HOT_PATH_TOPICS && row.cells.Keys == ReaderColumns(topic)
    ensures Sound(row, topic) <==>
              && (forall n | Needed(topic, n) :: !IsNull(row, n))
              && (forall n | Signed(topic, n) && n in row.cells :: AtLeastZero(row, n))
              && InOrder(row)
  {
    ReaderHas(topic);
    hide ReaderColumns, HOT_PATH_TOPICS, Quotes;
    if && (forall n | Needed(topic, n) :: !IsNull(row, n))
       && (forall n | Signed(topic, n) && n in row.cells :: AtLeastZero(row, n)) {
      assert forall n | Needed(topic, n) :: Filled(row, n);
      assert forall n | Signed(topic, n) :: AtLeastZero(row, n);
      PartsSuffice(row, topic);
    }
    if Sound(row, topic) {
      forall n | Needed(topic, n) ensures !IsNull(row, n) {
        SoundNeeded(row, topic, n);
      }
      forall n | Signed(topic, n) ensures AtLeastZero(row, n) {
        SoundSigned(row, topic, n);
      }
    }
  }

  lemma NamedColumns(topic: string)
    ensures Needed(topic, "symbol") && Needed(topic, "event_time_sec")
    ensures Trades(topic) ==> Signed(topic, "price") && Signed(topic, "quantity")
    ensures Quotes(topic) ==> Signed(topic, "bid_price") && Signed(topic, "ask_price")
    ensures QuoteRollups(topic) ==> Signed(topic, "message_count")
    ensures MarkPrices(topic) ==>
              Signed(topic, "mark_price") && Signed(topic, "index_price") && Needed(topic, "funding_rate")
    ensures OpenInterest(topic) ==> Signed(topic, "open_interest")
    ensures TradeRollups(topic) ==> forall n | Volume(n) :: Signed(topic, n)
  {
    hide Volume;
  }

  lemma PartsSuffice(row: Row, topic: string)
    requires forall n | Needed(topic, n) :: Filled(row, n)
    requires forall n | Signed(topic, n) :: AtLeastZero(row, n)
    ensures InOrder(row) ==> Sound(row, topic)
  {
    NamedColumns(topic);
    VolumesSound(row);
    hide Needed, Signed, Volume, SoundVolumes, Filled, AtLeastZero, InOrder;
    hide Trades, Quotes, QuoteRollups, MarkPrices, OpenInterest, TradeRollups;
  }

  lemma SoundNeeded(row: Row, topic: string, n: string)
    requires Sound(row, topic) && Needed(topic, n)
    ensures !IsNull(row, n)
  {
    hide SoundVolumes, InOrder;
  }

  lemma SoundSigned(row: Row, topic: string, n: string)
    requires Sound(row, topic) && Signed(topic, n)
    ensures AtLeastZero(row, n)
  {
    VolumesSound(row);
    hide AtLeastZero, Filled, Volume, SoundVolumes;
  }

  /** The message was parsed: the reader says so, or says nothing and has not left `_j` NULL. */
  predicate Parsed(row: Row) {
    match row.status
    case Holds(text) => text == Some("ok")
    case Missing => !row.malformed
  }

  predicate NotParsed(row: Row) {
    match row.status
    case Holds(text) => text.Some? && text != Some("ok")
    case Missing => row.malformed
  }

  /** The error that the row brings along: the reader's, or one for a parse error. */
  function BroughtError(row: Row): Option<string> {
    match row.error
    case Holds(text) => text
    case Missing =>
      if row.status == Holds(Some("parse_error")) || (row.status == Missing && row.malformed)
      then Some("malformed_json") else None
  }

  lemma StatusExactly(row: Row)
    ensures Status(row) == Some("ok") <==> Parsed(row)
    ensures Status(row).Some? && Status(row) != Some("ok") <==> NotParsed(row)
    ensures ParseError(row) == BroughtError(row)
  {
    assert |"ok"| == 2 && |"parse_error"| == 11;
  }

  /** A row of a hot topic is valid exactly when it was parsed, its columns are sound and it is on time. */
  lemma ValidExactly(row: Row, topic: string, clock: Clock)
    requires topic in HOT_PATH_TOPICS && row.cells.Keys == ReaderColumns(topic)
    ensures IsValid(row, topic, clock).True? <==>
              Parsed(row) && Sound(row, topic) && OnTime(row, clock)
  {
    StatusExactly(row);
    hide HOT_PATH_TOPICS, Conditions, Sound, OnTime, InOrder, OutOfOrder, IsNull, AtLeastZero, BelowZero, Status,
        IsValid, Signed, ReaderColumns, Parsed, NotParsed, ParseError, BroughtError;
    ReaderHas(topic);
    assert Needed(topic, "event_time_sec");
    hide Needed;
    SoundParts(row, topic);
    FlagMeaning(row, topic, clock);
    StatusCondition(row, topic, clock);
    NullCondition(row, topic, clock);
    SignCondition(row, topic, clock);
    OrderCondition(row, topic, clock);
    TimeCondition(row, topic, clock);
    var cs := Conditions(row, topic, clock);
    assert cs == [cs[0], cs[1], cs[2], cs[3], cs[4]];
  }

  /** The first thing that is wrong with a row, in the order of the gate, makes it invalid and names its
      label: it was not parsed, a needed column is NULL, a number is negative, the quotes are inverted,
      or the time is off. */
  lemma FaultLabelled(row: Row, topic: string, clock: Clock)
    requires topic in HOT_PATH_TOPICS && row.cells.Keys == ReaderColumns(topic)
    ensures var valid, reason := IsValid(row, topic, clock), Label(row, topic, clock);
            var lacking := exists n :: Needed(topic, n) && IsNull(row, n);
            var negative := exists n :: Signed(topic, n) && BelowZero(row, n);
            if NotParsed(row) then
              valid.False? && reason == Some(match BroughtError(row) case Some(e) => e case None => "parse_error")
            else if lacking then valid.False? && reason == Some("null_critical")
            else if negative then valid.False? && reason == Some("negative_value")
            else if OutOfOrder(row) then valid.False? && reason == Some("bid_ask_inverted")
            else if !OnTime(row, clock) then valid.False? && reason == Some("event_time_lag")
            else !valid.False? && reason == BroughtError(row)
  {
    StatusExactly(row);
    ReaderHas(topic);
    assert Needed(topic, "event_time_sec");
    hide ReaderColumns, HOT_PATH_TOPICS, Conditions, OnTime, InOrder, OutOfOrder, IsNull, AtLeastZero, BelowZero,
        Status, IsValid, Needed, Signed, ParseError, NotParsed, BroughtError;
    StatusCondition(row, topic, clock);
    NullCondition(row, topic, clock);
    SignCondition(row, topic, clock);
    OrderCondition(row, topic, clock);
    TimeCondition(row, topic, clock);
    LabelOf(row, topic, clock);
    hide Label;
  }

  lemma LabelOf(row: Row, topic: string, clock: Clock)
    ensures var cs := Conditions(row, topic, clock);
            && (IsValid(row, topic, clock).False? <==>
                cs[0].True? || cs[1].True? || cs[2].True? || cs[3].True? || cs[4].True?)
            && Label(row, topic, clock)
               == if cs[0].True? then Some(if ParseError(row).Some? then ParseError(row).value else "parse_error")
                  else if cs[1].True? then Some("null_critical")
                  else if cs[2].True? then Some("negative_value")
                  else if cs[3].True? then Some("bid_ask_inverted")
                  else if cs[4].True? then Some("event_time_lag")
                  else ParseError(row)
  {
    hide Conditions, IsValid, ParseError, FirstTrue;
    FlagMeaning(row, topic, clock);
    FirstFault(Conditions(row, topic, clock));
  }

  lemma FirstFault(cs: seq<Tri>)
    requires |cs| == 5
    ensures FirstTrue(cs) == if cs[0].True? then 0 else if cs[1].True? then 1 else if cs[2].True? then 2
                             else if cs[3].True? then 3 else if cs[4].True? then 4 else 5
    ensures True in cs <==> FirstTrue(cs) < 5
  {
    var k := FirstTrue(cs);
    assert forall j | 0 <= j < k :: cs[j] in cs[..k];
    assert cs == [cs[0], cs[1], cs[2], cs[3], cs[4]];
  }
}
