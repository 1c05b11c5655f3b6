/**
  The price stream over whole runs: book ticker batches pass the quality gate and refresh the books,
  price rows read them through the freshness check.
*/
module PriceRuns {
  import opened PyText
  import opened PriceCache
  import QualityGate

  // ------------------------------------------------------------------ the rows that a query hands over

  /** A row of a book ticker frame behind the gate, with its two text columns. */
  datatype Read = Read(row: QualityGate.Row, market: Option<string>, symbol: Option<string>)

  function CellOf(row: QualityGate.Row, name: string): Option<real> {
    if name in row.cells then QualityGate.AsDouble(row.cells[name]) else None
  }

  function QuoteOf(read: Read): Quote {
    Quote(read.market, read.symbol, CellOf(read.row, "bid_price"), CellOf(read.row, "ask_price"),
          CellOf(read.row, "event_time_sec"))
  }

  /** The row has the columns of its topic, doubles where the reader casts to double. */
  predicate FromReader(read: Read, topic: string) {
    && QualityGate.Typed(read.row, topic, QualityGate.ReaderColumns(topic))
    && "symbol" in read.row.cells && "event_time_sec" in read.row.cells
    && !read.row.cells["event_time_sec"].Opaque?
    && (read.row.cells["symbol"].NullCell? <==> read.symbol.None?)
  }

  /** One batch of one of the three queries.  `rows` is what reaches the handler, in its order. */
  datatype Event =
    | RollupBatch(read: seq<Read>, clock: QualityGate.Clock, rows: seq<Quote>)
    | RawBatch(m: Market, read: seq<Read>, clock: QualityGate.Clock, rows: seq<Quote>)
  {
    function Topic(): string {
      if RollupBatch? then "rollup-bookticker-1s" else if m == Spot then "spot-bookticker" else "binance-bookticker"
    }

    /** `prepare_for_aggregate`: in observe mode every row passes, otherwise the valid ones. */
    predicate Passes(x: Read, observe: bool) {
      observe || QualityGate.IsValid(x.row, Topic(), clock).True?
    }

    ghost predicate Delivered(observe: bool) {
      && (forall x | x in read :: FromReader(x, Topic()))
      && (forall q :: q in rows <==> exists x :: x in read && Passes(x, observe) && QuoteOf(x) == q)
      && (RollupBatch? ==> Ordered(rows))
    }
  }

  function Step(books: Books, e: Event): Books {
    match e
    case RollupBatch(_, _, rows) => Overwrite(books, rows)
    case RawBatch(Futures, _, _, rows) => Books(Refresh(books.futures, rows), books.spot)
    case RawBatch(Spot, _, _, rows) => Books(books.futures, Refresh(books.spot, rows))
  }

  function Run(es: seq<Event>): Books {
    if es == [] then EMPTY else Step(Run(es[..|es| - 1]), es[|es| - 1])
  }

  /** A batch of book tickers refreshes its own market: an entry of the market changes exactly as the
      latest values of its symbol say, and stays where the symbol has no row or lacks a value. */
  lemma RawStepExactly(books: Books, e: Event, m: Market, s: Key)
    requires e.RawBatch?
    ensures var after := Step(books, e).Of(m);
            if e.m == m && s in Symbols(e.rows) && Latest(e.rows, s).HasPrices()
            then s in after && after[s] == Latest(e.rows, s).Taken()
            else (s in after <==> s in books.Of(m)) && (s in after ==> after[s] == books.Of(m)[s])
  {
    hide Latest, Quote.HasPrices;
  }

  /** A rollup batch changes the entries that it has complete rows for, and no others. */
  lemma RollupStepExactly(books: Books, e: Event, m: Market, s: Key) returns (q: Quote)
    requires e.RollupBatch? && Ordered(e.rows)
    ensures var after := Step(books, e).Of(m);
            if Touches(e.rows, m, s) then s in after && Newest(q, e.rows, m, s) && after[s] == q.Taken()
            else (s in after <==> s in books.Of(m)) && (s in after ==> after[s] == books.Of(m)[s])
  {
    q := Quote(None, None, None, None, None);
    if Touches(e.rows, m, s) {
      q := BatchKeepsNewest(books, e.rows, m, s);
    } else {
      BatchKeepsOthers(books, e.rows, m, s);
    }
  }

  // ------------------------------------------------------------------ what the gate guarantees

  /** Prices that can be quoted. */
  predicate Quotable(q: Quote) {
    q.HasPrices() && 0.0 <= q.bid.value <= q.ask.value
  }

  predicate QuotableSnapshot(snap: Snapshot) {
    0.0 <= snap.bid <= snap.ask
  }

  ghost predicate QuotableBook(book: Book) {
    forall s | s in book :: QuotableSnapshot(book[s])
  }

  lemma BookTickerColumns(topic: string)
    requires topic in {"rollup-bookticker-1s", "spot-bookticker", "binance-bookticker"}
    ensures {"bid_price", "ask_price"} <= QualityGate.ReaderColumns(topic)
    ensures forall n | n in {"symbol", "bid_price", "ask_price",
        "event_time_sec"} :: n in QualityGate.CriticalColumns(topic)
    ensures forall n | n in {"bid_price", "ask_price"} :: n in QualityGate.NonNegativeColumns(topic)
  {
    var critical, signed := QualityGate.CriticalColumns(topic), QualityGate.NonNegativeColumns(topic);
    assert critical == ["symbol", "bid_price", "ask_price", "event_time_sec"];
    assert signed[..2] == ["bid_price", "ask_price"];
    hide QualityGate.CriticalColumns, QualityGate.NonNegativeColumns;
    assert critical[0] in critical && critical[1] in critical && critical[2] in critical && critical[3] in critical;
    assert signed[0] in signed && signed[1] in signed;
  }

  lemma GatePassesQuotable(x: Read, topic: string, clock: QualityGate.Clock)
    requires topic in {"rollup-bookticker-1s", "spot-bookticker", "binance-bookticker"}
    ensures FromReader(x, topic) && QualityGate.IsValid(x.row, topic, clock).True? ==> Quotable(QuoteOf(x))
  {
    hide QualityGate.IsValid, QualityGate.CriticalColumns, QualityGate.NonNegativeColumns, QualityGate.ReaderColumns,
         QualityGate.Status;
    BookTickerColumns(topic);
    if QualityGate.IsValid(x.row, topic, clock).True? {
      QualityGate.ValidRowMeans(x.row, topic, clock);
    }
  }

  lemma {:induction false} RollupKeepsQuotable(books: Books, rows: seq<Quote>)
    requires Ordered(rows) && forall q | q in rows :: Quotable(q)
    requires QuotableBook(books.futures) && QuotableBook(books.spot)
    ensures QuotableBook(Overwrite(books, rows).futures) && QuotableBook(Overwrite(books, rows).spot)
  {
    hide Overwrite, Ordered;
    var after := Overwrite(books, rows);
    forall m: Market, s | s in after.Of(m) ensures QuotableSnapshot(after.Of(m)[s]) {
      if Touches(rows, m, s) {
        var q := BatchKeepsNewest(books, rows, m, s);
      } else {
        BatchKeepsOthers(books, rows, m, s);
        assert QuotableBook(books.Of(m));
      }
    }
    assert after.Of(Futures) == after.futures && after.Of(Spot) == after.spot;
  }

  /** The last row of a symbol that occurs. */
  lemma {:induction false} LastRowOf(rows: seq<Quote>, s: Key) returns (k: nat)
    requires s in Symbols(rows)
    ensures k < |rows| && rows[k].symbol == s && forall i | k < i < |rows| :: rows[i].symbol != s
  {
    var last := |rows| - 1;
    if rows[last].symbol == s {
      k := last;
    } else {
      var q :| q in rows && q.symbol == s;
      assert q in rows[..last];
      k := LastRowOf(rows[..last], s);
    }
  }

  lemma RawKeepsQuotable(book: Book, rows: seq<Quote>)
    requires forall q | q in rows :: Quotable(q)
    requires QuotableBook(book)
    ensures QuotableBook(Refresh(book, rows))
  {
    hide LastKnown;
    forall s | s in Symbols(rows)
      ensures Latest(rows, s).HasPrices() && QuotableSnapshot(Latest(rows, s).Taken())
    {
      var k := LastRowOf(rows, s);
      assert rows[k] in rows;
      LatestIsLastRow(rows, s, k);
    }
  }

  /** Outside observe mode every entry that a raw batch writes is the last row of its symbol. */
  lemma RawEntryIsLastRow(e: Event, book: Book, s: Key) returns (k: nat)
    requires e.RawBatch? && e.Delivered(false) && s in Symbols(e.rows)
    ensures k < |e.rows| && e.rows[k].symbol == s && forall i | k < i < |e.rows| :: e.rows[i].symbol != s
    ensures e.rows[k].HasPrices() && s in Refresh(book, e.rows) && Refresh(book, e.rows)[s] == e.rows[k].Taken()
  {
    hide LastKnown, QuoteOf, FromReader, QualityGate.IsValid;
    k := LastRowOf(e.rows, s);
    RawRowQuotable(e, k);
    LatestIsLastRow(e.rows, s, k);
  }

  lemma RawRowQuotable(e: Event, k: nat)
    requires e.Delivered(false) && k < |e.rows|
    ensures Quotable(e.rows[k])
  {
    hide QuoteOf, FromReader, QualityGate.IsValid, Ordered, Quotable;
    assert e.rows[k] in e.rows;
    var x :| x in e.read && e.Passes(x, false) && QuoteOf(x) == e.rows[k];
    GatePassesQuotable(x, e.Topic(), e.clock);
  }

  /** Outside observe mode the books hold quotable snapshots in every reachable state. */
  lemma {:induction false} BooksStayQuotable(es: seq<Event>)
    requires forall e | e in es :: e.Delivered(false)
    ensures QuotableBook(Run(es).futures) && QuotableBook(Run(es).spot)
  {
    if es != [] {
      hide QuotableBook, Overwrite, Refresh, Quotable, QuoteOf, FromReader;
      var before, e := Run(es[..|es| - 1]), es[|es| - 1];
      BooksStayQuotable(es[..|es| - 1]);
      assert e.Delivered(false);
      forall q | q in e.rows ensures Quotable(q) {
        var x :| x in e.read && e.Passes(x, false) && QuoteOf(x) == q;
        GatePassesQuotable(x, e.Topic(), e.clock);
      }
      match e {
        case RollupBatch(_, _, rows) => RollupKeepsQuotable(before, rows);
        case RawBatch(Futures, _, _, rows) => RawKeepsQuotable(before.futures, rows);
        case RawBatch(Spot, _, _, rows) => RawKeepsQuotable(before.spot, rows);
      }
    }
  }

  // ------------------------------------------------------------------ price rows

  const NO_SNAPSHOT := Snapshot(0.0, 0.0, 0.0)

  function Cached(book: Book, s: Key): Snapshot {
    if s in book then book[s] else NO_SNAPSHOT
  }

  predicate Fresh(snap: Snapshot, now: real, limit: real) {
    snap.eventTime > 0.0 && now - snap.eventTime <= limit
  }

  /** The bid and ask columns after `_apply_bookticker_snapshot`. */
  function Applied(snap: Snapshot, now: real, limit: real): (real, real) {
    if Fresh(snap, now, limit) then (snap.bid, snap.ask) else (0.0, 0.0)
  }

  /** The columns that `process_batch` adds to the row of a symbol. */
  datatype Derived = Derived(futuresBid: real, futuresAsk: real, futuresSpread: real,
                             spotBid: real, spotAsk: real, spotSpread: real, basis: real)

  function Derive(books: Books, s: Key, now: real, limit: real): Derived {
    var futures, spot := Cached(books.futures, s), Cached(books.spot, s);
    var (fBid, fAsk) := Applied(futures, now, limit);
    var (sBid, sAsk) := Applied(spot, now, limit);
    var fFresh, sFresh := Fresh(futures, now, limit), Fresh(spot, now, limit);
    var fMid, sMid := (fBid + fAsk) / 2.0, (sBid + sAsk) / 2.0;
    Derived(fBid, fAsk, if fFresh then fAsk - fBid else 0.0,
            sBid, sAsk, if sFresh then sAsk - sBid else 0.0,
            if fFresh && sFresh && sMid != 0.0 then (fMid - sMid) / sMid * 100.0 else 0.0)
  }

  /** s has a snapshot that is at most limit old. */
  predicate FreshIn(book: Book, s: Key, now: real, limit: real) {
    s in book && Fresh(book[s], now, limit)
  }

  /** Whatever the books hold, a quote that is not zero is a cached one within the stale limit, and the
      basis is zero unless both books are fresh and the spot mid is not zero. */
  lemma QuotesAreFresh(books: Books, s: Key, now: real, limit: real)
    ensures var d := Derive(books, s, now, limit);
            && (d.futuresBid != 0.0 || d.futuresAsk != 0.0 || d.futuresSpread != 0.0
                ==> FreshIn(books.futures, s, now, limit))
            && (d.spotBid != 0.0 || d.spotAsk != 0.0 || d.spotSpread != 0.0 ==> FreshIn(books.spot, s, now, limit))
            && (d.basis != 0.0 ==>
                  && FreshIn(books.futures, s, now, limit) && FreshIn(books.spot, s, now, limit)
                  && books.spot[s].bid + books.spot[s].ask != 0.0)
  {
  }

  /** The quotes of one market: those of the entry when it has a time and is at most limit old, and
      otherwise zero. */
  lemma QuotesExactly(books: Books, s: Key, now: real, limit: real)
    ensures var d := Derive(books, s, now, limit);
            && (if s in books.futures && 0.0 < books.futures[s].eventTime && now - books.futures[s].eventTime <= limit
                then d.futuresBid == books.futures[s].bid && d.futuresAsk == books.futures[s].ask
                     && d.futuresSpread == books.futures[s].ask - books.futures[s].bid
                else d.futuresBid == d.futuresAsk == d.futuresSpread == 0.0)
            && (if s in books.spot && 0.0 < books.spot[s].eventTime && now - books.spot[s].eventTime <= limit
                then d.spotBid == books.spot[s].bid && d.spotAsk == books.spot[s].ask
                     && d.spotSpread == books.spot[s].ask - books.spot[s].bid
                else d.spotBid == d.spotAsk == d.spotSpread == 0.0)
  {
  }

  /** The entry has a time and is at most limit old. */
  predicate Current(snap: Snapshot, now: real, limit: real) {
    0.0 < snap.eventTime && snap.eventTime >= now - limit
  }

  /** The basis is the distance of the futures mid from the spot mid in percent of the latter, when both
      entries are current and the spot mid is not zero, and otherwise zero. */
  lemma BasisExactly(books: Books, s: Key, now: real, limit: real)
    ensures var d := Derive(books, s, now, limit);
            if s in books.futures && s in books.spot && Current(books.futures[s], now, limit)
               && Current(books.spot[s], now, limit) && books.spot[s].bid + books.spot[s].ask != 0.0
            then var fMid := (books.futures[s].bid + books.futures[s].ask) / 2.0;
                 var sMid := (books.spot[s].bid + books.spot[s].ask) / 2.0;
                 d.basis * sMid == (fMid - sMid) * 100.0
            else d.basis == 0.0
  {
    if s in books.futures && s in books.spot {
      var fMid := (books.futures[s].bid + books.futures[s].ask) / 2.0;
      var sMid := (books.spot[s].bid + books.spot[s].ask) / 2.0;
      if sMid != 0.0 {
        PercentOf(fMid - sMid, sMid);
      }
    }
  }

  lemma PercentOf(x: real, y: real)
    requires y != 0.0
    ensures x / y * 100.0 * y == x * 100.0
  {
    var z := x / y;
    assert z * y == x;
    assert z * 100.0 * y == z * y * 100.0;
  }

  /** In shadow and strict mode every price row of every run has quotes in order and spreads of at
      least zero. */
  lemma {:induction false} PriceRowsSound(es: seq<Event>, s: Key, now: real, limit: real)
    requires forall e | e in es :: e.Delivered(false)
    ensures var d := Derive(Run(es), s, now, limit);
            && 0.0 <= d.futuresBid <= d.futuresAsk && d.futuresSpread == d.futuresAsk - d.futuresBid
            && 0.0 <= d.spotBid <= d.spotAsk && d.spotSpread == d.spotAsk - d.spotBid
    ensures var d := Derive(Run(es), s, now, limit);
            FreshIn(Run(es).futures, s, now, limit) && d.spotAsk > 0.0 ==>
              && (d.basis > 0.0 <==> d.futuresBid + d.futuresAsk > d.spotBid + d.spotAsk)
              && (d.basis < 0.0 <==> d.futuresBid + d.futuresAsk < d.spotBid + d.spotAsk)
  {
    BooksStayQuotable(es);
    hide Run;
    BasisSign(Run(es), s, now, limit);
    hide Event.Delivered;
  }

  /** The basis has the sign of the difference of the mids. */
  lemma BasisSign(books: Books, s: Key, now: real, limit: real)
    requires QuotableBook(books.spot)
    ensures var d := Derive(books, s, now, limit);
            FreshIn(books.futures, s, now, limit) && d.spotAsk > 0.0 ==>
              && (d.basis > 0.0 <==> d.futuresBid + d.futuresAsk > d.spotBid + d.spotAsk)
              && (d.basis < 0.0 <==> d.futuresBid + d.futuresAsk < d.spotBid + d.spotAsk)
  {
    var d := Derive(books, s, now, limit);
    if FreshIn(books.futures, s, now, limit) && d.spotAsk > 0.0 {
      var fMid, sMid := (d.futuresBid + d.futuresAsk) / 2.0, (d.spotBid + d.spotAsk) / 2.0;
      assert d.basis == (fMid - sMid) / sMid * 100.0;
      QuotientSign(fMid - sMid, sMid);
    }
  }

  lemma QuotientSign(x: real, y: real)
    requires y > 0.0
    ensures x / y * 100.0 > 0.0 <==> x > 0.0
    ensures x / y * 100.0 < 0.0 <==> x < 0.0
  {
    var z := x / y;
    assert z * y == x;
  }

  const X: Key := Some("X")

  /** A parsed row of the futures book ticker for the symbol X. */
  function RawRead(bid: QualityGate.Cell, ask: QualityGate.Cell, time: real): Read {
    Read(QualityGate.Row(
           map["symbol" := QualityGate.Opaque, "bid_price" := bid, "ask_price" := ask,
               "event_time_sec" := QualityGate.Number(time)],
           false, QualityGate.Holds(Some("ok")), QualityGate.Holds(None)),
         None, X)
  }

  /** Its price, unless it is NULL. */
  function Price(cell: QualityGate.Cell): Option<real> {
    QualityGate.AsDouble(cell)
  }

  lemma RawReadParsed(bid: QualityGate.Cell, ask: QualityGate.Cell, time: real)
    requires !bid.Opaque? && !ask.Opaque?
    ensures FromReader(RawRead(bid, ask, time), "binance-bookticker")
    ensures QuoteOf(RawRead(bid, ask, time)) == Quote(None, X, Price(bid), Price(ask), Some(time))
  {
  }

  /** Any rows may arrive in observe mode. */
  lemma ObservedIsDelivered(read: seq<Read>, clock: QualityGate.Clock, rows: seq<Quote>)
    requires |rows| == |read| && forall i | 0 <= i < |read| :: QuoteOf(read[i]) == rows[i]
    requires forall x | x in read :: FromReader(x, "binance-bookticker")
    ensures RawBatch(Futures, read, clock, rows).Delivered(true)
  {
    hide QuoteOf, FromReader, QualityGate.IsValid;
    var e := RawBatch(Futures, read, clock, rows);
    forall q | q in rows ensures exists x :: x in read && e.Passes(x, true) && QuoteOf(x) == q {
      var i :| 0 <= i < |rows| && rows[i] == q;
      assert read[i] in read && e.Passes(read[i], true);
    }
    forall x | x in read ensures QuoteOf(x) in rows {
      var i :| 0 <= i < |read| && read[i] == x;
      assert rows[i] in rows;
    }
  }

  lemma OneRawBatch(e: Event)
    requires e.RawBatch? && e.m == Futures
    ensures Run([e]) == Books(Refresh(map[], e.rows), map[])
  {
    hide Refresh;
    assert [e][..0] == [];
  }

  /** A futures batch of one row whose bid is above its ask. */
  function InvertedBatch(clock: QualityGate.Clock): Event {
    RawBatch(Futures, [RawRead(QualityGate.Number(2.0), QualityGate.Number(1.0), 5.0)], clock, [INVERTED])
  }

  const INVERTED := Quote(None, X, Some(2.0), Some(1.0), Some(5.0))

  /** In observe mode an inverted quote passes and a price row has a negative spread. */
  lemma ObserveModeInverts(clock: QualityGate.Clock)
    ensures InvertedBatch(clock).Delivered(true)
    ensures Derive(Run([InvertedBatch(clock)]), X, 5.0, 0.0).futuresSpread == -1.0
  {
    hide Event.Delivered, RawRead, Run, FromReader, QuoteOf;
    RawReadParsed(QualityGate.Number(2.0), QualityGate.Number(1.0), 5.0);
    ObservedIsDelivered(InvertedBatch(clock).read, clock, [INVERTED]);
    OneRawBatch(InvertedBatch(clock));
    LatestIsLastRow([INVERTED], X, 0);
    assert INVERTED in [INVERTED] && X in Symbols([INVERTED]);
  }

  ghost predicate AllDelivered(es: seq<Event>, observe: bool) {
    forall e | e in es :: e.Delivered(observe)
  }

  predicate SpreadsHold(d: Derived) {
    d.futuresSpread >= 0.0 && d.spotSpread >= 0.0
  }

  /** No run that is delivered in a mode gives a price row a negative spread, exactly when the mode is not
      observe. */
  lemma SpreadsHoldExactly(observe: bool)
    ensures (forall es, s, now, limit | AllDelivered(es, observe) :: SpreadsHold(Derive(Run(es), s, now, limit)))
            <==> !observe
  {
    if observe {
      var clock := QualityGate.Clock(0, 0, 0);
      ObserveModeInverts(clock);
      assert AllDelivered([InvertedBatch(clock)], true);
      assert !SpreadsHold(Derive(Run([InvertedBatch(clock)]), X, 5.0, 0.0));
    } else {
      hide Event.Delivered, Derive, Run;
      forall es, s, now, limit | AllDelivered(es, false) ensures SpreadsHold(Derive(Run(es), s, now, limit)) {
        PriceRowsSound(es, s, now, limit);
      }
    }
  }

  /** A futures batch of two rows, neither inverted, the second without a bid. */
  function MixingBatch(clock: QualityGate.Clock): Event {
    RawBatch(Futures, [RawRead(QualityGate.Number(5.0), QualityGate.Number(6.0), 1.0),
                       RawRead(QualityGate.NullCell, QualityGate.Number(4.0), 2.0)],
             clock, [FULL, BIDLESS])
  }

  const FULL := Quote(None, X, Some(5.0), Some(6.0), Some(1.0))

  const BIDLESS := Quote(None, X, None, Some(4.0), Some(2.0))

  /** In observe mode the two rows pass, and the entry is put together from both, inverted although
      neither row is. */
  lemma MixedQuote(clock: QualityGate.Clock)
    ensures MixingBatch(clock).Delivered(true)
    ensures var books := Run([MixingBatch(clock)]);
            X in books.futures && books.futures[X] == Snapshot(5.0, 4.0, 2.0)
  {
    hide Event.Delivered, RawRead, Run, FromReader, QuoteOf;
    RawReadParsed(QualityGate.Number(5.0), QualityGate.Number(6.0), 1.0);
    RawReadParsed(QualityGate.NullCell, QualityGate.Number(4.0), 2.0);
    var rows := [FULL, BIDLESS];
    ObservedIsDelivered(MixingBatch(clock).read, clock, rows);
    OneRawBatch(MixingBatch(clock));
    LatestFrom(rows, X, 0, 1, 1);
    assert rows[0] in rows && X in Symbols(rows);
    hide Latest;
    assert Refresh(map[], rows)[X] == Latest(rows, X).Taken();
  }

  // ------------------------------------------------------------------ which batch an entry is from

  /** An entry is from the last rollup batch that touched it, and is the newest quote there. */
  lemma {:induction false} EntryFromLastTouch(es: seq<Event>, i: nat, m: Market, s: Key) returns (q: Quote)
    requires forall e | e in es :: e.RollupBatch? && Ordered(e.rows)
    requires i < |es| && Touches(es[i].rows, m, s) && forall j | i < j < |es| :: !Touches(es[j].rows, m, s)
    ensures Newest(q, es[i].rows, m, s) && s in Run(es).Of(m) && Run(es).Of(m)[s] == q.Taken()
    decreases |es|
  {
    hide Ordered, Overwrite, Newest, Touches;
    var rest, e := es[..|es| - 1], es[|es| - 1];
    assert e in es;
    if i == |es| - 1 {
      q := BatchKeepsNewest(Run(rest), e.rows, m, s);
    } else {
      assert !Touches(es[|es| - 1].rows, m, s);
      q := EntryFromLastTouch(rest, i, m, s);
      BatchKeepsOthers(Run(rest), e.rows, m, s);
    }
  }

  /** No quote for m and s in the run is later than the given time. */
  ghost predicate NoneLater(es: seq<Event>, m: Market, s: Key, time: real) {
    forall j, k | 0 <= j < |es| && 0 <= k < |es[j].rows| && es[j].rows[k].About(m, s) ::
      es[j].rows[k].eventTime.value <= time
  }

  /** An entry is the newest of the whole run exactly when the last batch that touches it has the
      newest: batches overwrite without comparing times. */
  lemma {:induction false} EntryIsNewestOfRun(es: seq<Event>, i: nat, m: Market, s: Key)
    requires forall e | e in es :: e.RollupBatch? && Ordered(e.rows)
    requires i < |es| && Touches(es[i].rows, m, s) && forall j | i < j < |es| :: !Touches(es[j].rows, m, s)
    ensures s in Run(es).Of(m)
    ensures NoneLater(es, m, s, Run(es).Of(m)[s].eventTime)
            <==> exists k :: 0 <= k < |es[i].rows| && es[i].rows[k].About(m, s)
                             && NoneLater(es, m, s, es[i].rows[k].eventTime.value)
  {
    hide Ordered, Overwrite, Touches, Run;
    var q := EntryFromLastTouch(es, i, m, s);
    var k :| 0 <= k < |es[i].rows| && es[i].rows[k] == q;
    if exists k' :: 0 <= k' < |es[i].rows| && es[i].rows[k'].About(m, s)
        && NoneLater(es, m, s, es[i].rows[k'].eventTime.value) {
      var k' :| 0 <= k' < |es[i].rows| && es[i].rows[k'].About(m, s)
          && NoneLater(es, m, s, es[i].rows[k'].eventTime.value);
      assert es[i].rows[k'].eventTime.value <= q.eventTime.value;
    }
  }

  /** A parsed row of the rollup topic for the spot book of the symbol X. */
  function RollupRead(price: real, time: int): Read {
    Read(QualityGate.Row(
           map["symbol" := QualityGate.Opaque, "market" := QualityGate.Opaque,
               "bid_price" := QualityGate.Number(price), "ask_price" := QualityGate.Number(price),
               "event_time_sec" := QualityGate.Number(time as real), "message_count" := QualityGate.Number(1.0)],
           false, QualityGate.Holds(Some("ok")), QualityGate.Holds(None)),
         Some("spot"), X)
  }

  /** A batch of that row alone. */
  function SingleBatch(price: real, time: int, clock: QualityGate.Clock): Event {
    RollupBatch([RollupRead(price, time)], clock, [SpotQuote(price, time)])
  }

  function SpotQuote(price: real, time: int): Quote {
    Quote(Some("spot"), X, Some(price), Some(price), Some(time as real))
  }

  /** The row passes the gate when it is on time. */
  lemma RollupReadPasses(price: real, time: int, clock: QualityGate.Clock)
    requires price >= 0.0 && time > 0 && -clock.future <= clock.now - time * 1000 <= clock.late
    ensures QualityGate.IsValid(RollupRead(price, time).row, "rollup-bookticker-1s", clock).True?
  {
    var row, topic := RollupRead(price, time).row, "rollup-bookticker-1s";
    RollupReadOnTime(price, time, clock);
    RollupReadFilled(price, time);
    RollupReadSigns(price, time);
    var cs := QualityGate.Conditions(row, topic, clock);
    assert cs[0].False? && cs[1].False? && cs[2].False? && cs[3].False? && cs[4].False?;
    hide *;
    QualityGate.FlagMeaning(row, topic, clock);
    assert cs == [cs[0], cs[1], cs[2], cs[3], cs[4]];
  }

  lemma RollupReadOnTime(price: real, time: int, clock: QualityGate.Clock)
    requires time > 0 && -clock.future <= clock.now - time * 1000 <= clock.late
    ensures QualityGate.LagBad(RollupRead(price, time).row, clock).False?
  {
    assert time as real * 1000.0 == (time * 1000) as real;
  }

  lemma RollupReadSigns(price: real, time: int)
    requires price >= 0.0
    ensures var row, topic := RollupRead(price, time).row, "rollup-bookticker-1s";
            QualityGate.OrAll(QualityGate.SignChecks(row, QualityGate.NonNegativeColumns(topic))).False?
  {
    assert QualityGate.NonNegativeColumns("rollup-bookticker-1s") == ["bid_price", "ask_price", "message_count"];
    hide QualityGate.OrAll, QualityGate.SignChecks, QualityGate.NonNegativeColumns;
  }

  lemma RollupReadFilled(price: real, time: int)
    ensures var row, topic := RollupRead(price, time).row, "rollup-bookticker-1s";
            QualityGate.OrAll(QualityGate.NullChecks(row, QualityGate.CriticalColumns(topic))).False?
  {
    hide QualityGate.OrAll, QualityGate.NullChecks, QualityGate.CriticalColumns;
  }

  lemma RollupReadParsed(price: real, time: int)
    ensures QuoteOf(RollupRead(price, time)) == SpotQuote(price, time)
    ensures FromReader(RollupRead(price, time), "rollup-bookticker-1s")
  {
    var columns := {"symbol", "market", "bid_price", "ask_price", "event_time_sec", "message_count"};
    assert QualityGate.ReaderColumns("rollup-bookticker-1s") == columns;
    hide QualityGate.NonNegativeColumns, QualityGate.ReaderColumns;
    assert RollupRead(price, time).row.cells.Keys == columns;
  }

  lemma SingleIsDelivered(price: real, time: int, clock: QualityGate.Clock)
    requires price >= 0.0 && time > 0 && -clock.future <= clock.now - time * 1000 <= clock.late
    ensures SingleBatch(price, time, clock).Delivered(false)
  {
    var e, x := SingleBatch(price, time, clock), RollupRead(price, time);
    hide QuoteOf, FromReader, QualityGate.IsValid, RollupRead, SpotQuote;
    RollupReadPasses(price, time, clock);
    RollupReadParsed(price, time);
    assert forall r :: r in e.rows <==> r == SpotQuote(price, time);
    assert forall y :: y in e.read <==> y == x;
  }

  /** Two batches that the gate passes, the second with an older quote: the entry goes back in time. */
  lemma EntryMayGoBack(clock: QualityGate.Clock, newer: int, older: int)
    requires 0 < older < newer
    requires -clock.future <= clock.now - newer * 1000 && clock.now - older * 1000 <= clock.late
    ensures var first, second := SingleBatch(1.0, newer, clock), SingleBatch(2.0, older, clock);
            && first.Delivered(false) && second.Delivered(false)
            && X in Run([first]).spot && Run([first]).spot[X].eventTime == newer as real
            && X in Run([first, second]).spot && Run([first, second]).spot[X].eventTime == older as real
  {
    var first, second := SingleBatch(1.0, newer, clock), SingleBatch(2.0, older, clock);
    SingleIsDelivered(1.0, newer, clock);
    SingleIsDelivered(2.0, older, clock);
    hide Event.Delivered, Run, RollupRead;
    SingleEntry([first], 1.0, newer, clock);
    SingleEntry([first, second], 2.0, older, clock);
  }

  /** After such a batch the entry is its quote. */
  lemma {:induction false} SingleEntry(es: seq<Event>, price: real, time: int, clock: QualityGate.Clock)
    requires es != [] && es[|es| - 1] == SingleBatch(price, time, clock)
    ensures X in Run(es).spot && Run(es).spot[X] == SpotQuote(price, time).Taken()
  {
    hide RollupRead;
    var rows := [SpotQuote(price, time)];
    assert rows[0].About(Spot, X);
    var q := BatchKeepsNewest(Run(es[..|es| - 1]), rows, Spot, X);
    assert q in rows;
  }
}
