/**
  The quote books of the price stream: what book ticker batches write into them, and what the price
  rows read out of them.  An operation on a whole column is described by what it does to one row.
*/
module PriceCache {
  import opened PyText

  datatype Market = Futures | Spot

  datatype Snapshot = Snapshot(bid: real, ask: real, eventTime: real)

  /** A row of a book ticker frame; None is NULL.  Only rollup frames have a market. */
  datatype Quote = Quote(market: Option<string>, symbol: Option<string>,
                         bid: Option<real>, ask: Option<real>, eventTime: Option<real>)
  {
    predicate HasPrices() {
      bid.Some? && ask.Some? && eventTime.Some?
    }

    /** The rows that a rollup batch does not skip. */
    predicate Complete() {
      market.Some? && symbol.Some? && HasPrices()
    }

    /** Everything that is not the spot market goes to the futures book. */
    predicate About(m: Market, s: Key) {
      Complete() && symbol == s && m == if market.value == "spot" then Spot else Futures
    }

    function Taken(): Snapshot
      requires HasPrices()
    {
      Snapshot(bid.value, ask.value, eventTime.value)
    }
  }

  /** A symbol, or NULL, under which the raw batches keep an entry too. */
  type Key = Option<string>

  type Book = map<Key, Snapshot>

  datatype Books = Books(futures: Book, spot: Book) {
    function Of(m: Market): Book {
      match m case Futures => futures case Spot => spot
    }

    function Put(m: Market, s: Key, snap: Snapshot): (r: Books)
      ensures r.Of(m) == Of(m)[s := snap]
      ensures forall other | other != m :: r.Of(other) == Of(other)
    {
      match m case Futures => Books(futures[s := snap], spot) case Spot => Books(futures, spot[s := snap])
    }
  }

  const EMPTY := Books(map[], map[])

  // ------------------------------------------------------------------ rollup batches

  /** Spark's ascending order, NULL first. */
  predicate Ordered(rows: seq<Quote>) {
    forall i, j | 0 <= i < j < |rows| ::
      rows[i].eventTime.Some? ==> rows[j].eventTime.Some? && rows[i].eventTime.value <= rows[j].eventTime.value
  }

  /** The books after the rows, each complete row overwriting its entry. */
  function Overwrite(books: Books, rows: seq<Quote>): Books {
    if rows == [] then books
    else
      var q := rows[|rows| - 1];
      var before := Overwrite(books, rows[..|rows| - 1]);
      if !q.Complete() then before
      else before.Put(if q.market.value == "spot" then Spot else Futures, q.symbol, q.Taken())
  }

  predicate Touches(rows: seq<Quote>, m: Market, s: Key) {
    exists i :: 0 <= i < |rows| && rows[i].About(m, s)
  }

  /** q is a quote for m and s with the greatest event time among rows. */
  predicate Newest(q: Quote, rows: seq<Quote>, m: Market, s: Key) {
    && q.About(m, s) && q in rows
    && forall i | 0 <= i < |rows| && rows[i].About(m, s) :: rows[i].eventTime.value <= q.eventTime.value
  }

  /** After a batch every touched entry is a whole row with the batch's greatest event time. */
  lemma {:induction false} BatchKeepsNewest(books: Books, rows: seq<Quote>, m: Market, s: Key) returns (q: Quote)
    requires Ordered(rows) && Touches(rows, m, s)
    ensures Newest(q, rows, m, s)
    ensures s in Overwrite(books, rows).Of(m) && Overwrite(books, rows).Of(m)[s] == q.Taken()
  {
    var rest, last := rows[..|rows| - 1], rows[|rows| - 1];
    if last.About(m, s) {
      q := last;
    } else {
      assert Touches(rest, m, s) by {
        var i :| 0 <= i < |rows| && rows[i].About(m, s);
        assert rest[i].About(m, s);
      }
      q := BatchKeepsNewest(books, rest, m, s);
      forall i | 0 <= i < |rows| && rows[i].About(m, s) ensures rows[i].eventTime.value <= q.eventTime.value {
        assert rest[i].About(m, s);
      }
    }
  }

  /** All other entries are as they were. */
  lemma {:induction false} BatchKeepsOthers(books: Books, rows: seq<Quote>, m: Market, s: Key)
    requires !Touches(rows, m, s)
    ensures s in Overwrite(books, rows).Of(m) <==> s in books.Of(m)
    ensures s in books.Of(m) ==> Overwrite(books, rows).Of(m)[s] == books.Of(m)[s]
  {
    if rows != [] {
      var rest, last := rows[..|rows| - 1], rows[|rows| - 1];
      assert !last.About(m, s);
      assert forall i | 0 <= i < |rest| :: rest[i] == rows[i];
      BatchKeepsOthers(books, rest, m, s);
    }
  }

  // ------------------------------------------------------------------ raw batches

  /** `last(..., ignorenulls)` of one column over the rows of a symbol, in the order Spark meets them. */
  function LastKnown(rows: seq<Quote>, s: Key, column: Quote -> Option<real>): Option<real> {
    if rows == [] then None
    else
      var q := rows[|rows| - 1];
      if q.symbol == s && column(q).Some? then column(q) else LastKnown(rows[..|rows| - 1], s, column)
  }

  function BidOf(q: Quote): Option<real> {
    q.bid
  }

  function AskOf(q: Quote): Option<real> {
    q.ask
  }

  function TimeOf(q: Quote): Option<real> {
    q.eventTime
  }

  /** The aggregated row of a symbol: every column for itself. */
  function Latest(rows: seq<Quote>, s: Key): (q: Quote)
    ensures q.symbol == s
  {
    Quote(None, s, LastKnown(rows, s, BidOf), LastKnown(rows, s, AskOf), LastKnown(rows, s, TimeOf))
  }

  function Symbols(rows: seq<Quote>): set<Key> {
    set q | q in rows :: q.symbol
  }

  /** The book after the aggregated rows of some of the symbols. */
  function RefreshSome(book: Book, rows: seq<Quote>, done: set<Key>): Book {
    book + map s | s in done && Latest(rows, s).HasPrices() :: Latest(rows, s).Taken()
  }

  /** The book after a raw batch. */
  function Refresh(book: Book, rows: seq<Quote>): Book {
    RefreshSome(book, rows, Symbols(rows))
  }

  lemma RefreshOne(book: Book, rows: seq<Quote>, done: set<Key>, s: Key)
    ensures RefreshSome(book, rows, done + {s})
            == if Latest(rows, s).HasPrices() then RefreshSome(book, rows, done)[s := Latest(rows, s).Taken()]
               else RefreshSome(book, rows, done)
  {
    hide LastKnown;
  }

  /** Without NULL among a symbol's rows its aggregated row is its last row. */
  lemma {:induction false} LatestIsLastRow(rows: seq<Quote>, s: Key, k: nat)
    requires k < |rows| && rows[k].symbol == s && forall i | k < i < |rows| :: rows[i].symbol != s
    requires rows[k].HasPrices()
    ensures Latest(rows, s).HasPrices() && Latest(rows, s).Taken() == rows[k].Taken()
  {
    if k < |rows| - 1 {
      var rest := rows[..|rows| - 1];
      assert forall i | 0 <= i < |rest| :: rest[i] == rows[i];
      LatestIsLastRow(rest, s, k);
    }
  }

  /** Row k is the last row of the symbol in which the column is filled. */
  ghost predicate LastFilled(rows: seq<Quote>, s: Key, column: Quote -> Option<real>, k: nat) {
    && k < |rows| && rows[k].symbol == s && column(rows[k]).Some?
    && forall i | k < i < |rows| && rows[i].symbol == s :: column(rows[i]).None?
  }

  lemma {:induction false} LastKnownAt(rows: seq<Quote>, s: Key, column: Quote -> Option<real>, k: nat)
    requires LastFilled(rows, s, column, k)
    ensures LastKnown(rows, s, column) == column(rows[k])
  {
    if k < |rows| - 1 {
      var rest := rows[..|rows| - 1];
      assert forall i | 0 <= i < |rest| :: rest[i] == rows[i];
      LastKnownAt(rest, s, column, k);
    }
  }

  /** A column is known exactly when some row of the symbol has it filled; without one there is no entry. */
  lemma {:induction false} KnownExactly(rows: seq<Quote>, s: Key, column: Quote -> Option<real>)
    ensures LastKnown(rows, s, column).Some?
            <==> exists i :: 0 <= i < |rows| && rows[i].symbol == s && column(rows[i]).Some?
  {
    if rows != [] {
      var rest := rows[..|rows| - 1];
      KnownExactly(rest, s, column);
      assert forall i | 0 <= i < |rest| :: rest[i] == rows[i];
    }
  }

  /** The same symbols, and NULL in the same places. */
  ghost predicate SamePlacement(a: seq<Quote>, b: seq<Quote>) {
    && |a| == |b|
    && forall i | 0 <= i < |a| ::
        && a[i].symbol == b[i].symbol && (a[i].bid.Some? <==> b[i].bid.Some?)
        && (a[i].ask.Some? <==> b[i].ask.Some?) && (a[i].eventTime.Some? <==> b[i].eventTime.Some?)
  }

  /** Row i of the symbol is the symbol's aggregated row. */
  predicate IsLatest(rows: seq<Quote>, s: Key, i: nat) {
    && i < |rows| && rows[i].symbol == s && rows[i].HasPrices()
    && Latest(rows, s).HasPrices() && Latest(rows, s).Taken() == rows[i].Taken()
  }

  ghost predicate WholeRow(rows: seq<Quote>, s: Key) {
    exists i: nat :: IsLatest(rows, s, i)
  }

  /** Every filled value is the number of its row. */
  function Numbered(rows: seq<Quote>): (r: seq<Quote>)
    ensures |r| == |rows|
    ensures forall i | 0 <= i < |rows| :: r[i] == NumberedRow(rows[i], i as real)
  {
    seq(|rows|, i requires 0 <= i < |rows| => NumberedRow(rows[i], i as real))
  }

  function NumberedRow(q: Quote, x: real): Quote {
    Quote(q.market, q.symbol, if q.bid.Some? then Some(x) else None, if q.ask.Some? then Some(x) else None,
          if q.eventTime.Some? then Some(x) else None)
  }

  /** The aggregated row takes each column from the last row in which it is filled. */
  lemma LatestFrom(rows: seq<Quote>, s: Key, bid: nat, ask: nat, time: nat)
    requires LastFilled(rows, s, BidOf, bid) && LastFilled(rows, s, AskOf, ask) && LastFilled(rows, s, TimeOf, time)
    ensures Latest(rows, s) == Quote(None, s, rows[bid].bid, rows[ask].ask, rows[time].eventTime)
  {
    hide LastKnown;
    LastKnownAt(rows, s, BidOf, bid);
    LastKnownAt(rows, s, AskOf, ask);
    LastKnownAt(rows, s, TimeOf, time);
  }

  lemma PlacementFills(rows: seq<Quote>, others: seq<Quote>, s: Key, bid: nat, ask: nat, time: nat)
    requires SamePlacement(rows, others)
    requires LastFilled(rows, s, BidOf, bid) && LastFilled(rows, s, AskOf, ask) && LastFilled(rows, s, TimeOf, time)
    ensures LastFilled(others, s, BidOf, bid) && LastFilled(others, s, AskOf, ask)
        && LastFilled(others, s, TimeOf, time)
  {
  }

  /** For a given placement of NULLs the entry of a symbol is a whole row, whatever the values, exactly
      when bid, ask and time are last filled in the same row. */
  lemma WholeRowExactly(rows: seq<Quote>, s: Key, bid: nat, ask: nat, time: nat)
    requires LastFilled(rows, s, BidOf, bid) && LastFilled(rows, s, AskOf, ask) && LastFilled(rows, s, TimeOf, time)
    ensures (forall others | SamePlacement(rows, others) :: WholeRow(others, s)) <==> bid == ask == time
  {
    hide LastFilled, Latest;
    if bid == ask == time {
      forall others | SamePlacement(rows, others) ensures WholeRow(others, s) {
        PlacementFills(rows, others, s, bid, ask, time);
        LatestFrom(others, s, bid, ask, time);
        FilledRow(others, s, bid);
        assert IsLatest(others, s, bid);
      }
    } else {
      var others := Numbered(rows);
      assert SamePlacement(rows, others);
      PlacementFills(rows, others, s, bid, ask, time);
      LatestFrom(others, s, bid, ask, time);
      FilledIn(others, s, bid, ask, time);
      forall i: nat ensures !IsLatest(others, s, i) {
        if i < |others| && others[i].HasPrices() {
          assert others[i].Taken() == Snapshot(i as real, i as real, i as real);
        }
      }
    }
  }

  lemma FilledRow(rows: seq<Quote>, s: Key, k: nat)
    requires LastFilled(rows, s, BidOf, k) && LastFilled(rows, s, AskOf, k) && LastFilled(rows, s, TimeOf, k)
    ensures k < |rows| && rows[k].symbol == s && rows[k].HasPrices()
  {
  }

  lemma FilledIn(rows: seq<Quote>, s: Key, bid: nat, ask: nat, time: nat)
    requires LastFilled(rows, s, BidOf, bid) && LastFilled(rows, s, AskOf, ask) && LastFilled(rows, s, TimeOf, time)
    ensures bid < |rows| && rows[bid].bid.Some? && ask < |rows| && rows[ask].ask.Some?
    ensures time < |rows| && rows[time].eventTime.Some?
  {
  }

  // ------------------------------------------------------------------ the object

  class PriceInsight {
    var futuresBook: Book
    var spotBook: Book

    constructor ()
      ensures Contents() == EMPTY
    {
      futuresBook, spotBook := map[], map[];
    }

    function Contents(): Books
      reads this
    {
      Books(futuresBook, spotBook)
    }

    /** `_update_rollup_bt`, on the rows that Spark has ordered and collected. */
    method UpdateRollupBt(rows: seq<Quote>)
      modifies this
      ensures Contents() == Overwrite(old(Contents()), rows)
    {
      for i := 0 to |rows|
        invariant Contents() == Overwrite(old(Contents()), rows[..i])
      {
        assert rows[..i + 1][..i] == rows[..i];
        var row := rows[i];
        if row.market.None? || row.symbol.None? || row.bid.None? || row.ask.None? || row.eventTime.None? {
          continue;
        }
        var snapshot := Snapshot(row.bid.value, row.ask.value, row.eventTime.value);
        if row.market.value == "spot" {
          spotBook := spotBook[row.symbol := snapshot];
        } else {
          futuresBook := futuresBook[row.symbol := snapshot];
        }
      }
      assert rows[..|rows|] == rows;
    }

    /** `_update_futures_bt` and `_update_spot_bt`: latest lists the symbols of the batch, once each,
        in the order in which they are collected. */
    method UpdateRawBt(m: Market, rows: seq<Quote>, latest: seq<Key>)
      requires forall s :: s in latest <==> s in Symbols(rows)
      modifies this
      ensures Contents().Of(m) == Refresh(old(Contents()).Of(m), rows)
      ensures forall other | other != m :: Contents().Of(other) == old(Contents()).Of(other)
    {
      ghost var written: set<Key> := {};
      assert RefreshSome(Contents().Of(m), rows, written) == Contents().Of(m);
      hide RefreshSome, Latest;
      for i := 0 to |latest|
        invariant written == set s | s in latest[..i]
        invariant Contents().Of(m) == RefreshSome(old(Contents()).Of(m), rows, written)
        invariant forall other | other != m :: Contents().Of(other) == old(Contents()).Of(other)
      {
        RefreshOne(old(Contents()).Of(m), rows, written, latest[i]);
        var row := Latest(rows, latest[i]);
        written := written + {latest[i]};
        assert latest[..i + 1] == latest[..i] + [latest[i]];
        if row.bid.None? || row.ask.None? || row.eventTime.None? {
          continue;
        }
        var snapshot := Snapshot(row.bid.value, row.ask.value, row.eventTime.value);
        match m {
          case Spot => spotBook := spotBook[latest[i] := snapshot];
          case Futures => futuresBook := futuresBook[latest[i] := snapshot];
        }
      }
      assert latest[..|latest|] == latest;
      assert written == Symbols(rows);
    }
  }
}
