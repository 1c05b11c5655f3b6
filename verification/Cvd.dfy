/**
  Windowed aggregation of trades: the 5-second rows of the CVD stream, the same rows from
  per-second rollups, and the 10-second mart built on top.  Quantities are reals.
*/
module Cvd {
  import opened PyText

  datatype Trade = Trade(symbol: string, source: string, price: real, quantity: real, maker: Option<bool>, eventMs: int)

  /** The summed columns of an output row. */
  datatype Totals = Totals(
    futuresBuy: real, futuresSell: real, futuresCount: int, spotBuy: real, spotSell: real, spotCount: int,
    whaleBuyCount: int, whaleSellCount: int, whaleBuyVol: real, whaleSellVol: real)
  {
    function Add(that: Totals): Totals {
      Totals(futuresBuy + that.futuresBuy, futuresSell + that.futuresSell, futuresCount + that.futuresCount,
             spotBuy + that.spotBuy, spotSell + that.spotSell, spotCount + that.spotCount,
             whaleBuyCount + that.whaleBuyCount, whaleSellCount + that.whaleSellCount,
             whaleBuyVol + that.whaleBuyVol, whaleSellVol + that.whaleSellVol)
    }
  }

  const ZERO := Totals(0.0, 0.0, 0, 0.0, 0.0, 0, 0, 0, 0.0, 0.0)

  function WhaleThreshold(symbol: string): real {
    if symbol == "BTCUSDT" then 500000.0
    else if symbol == "ETHUSDT" then 300000.0
    else if symbol == "SOLUSDT" then 100000.0
    else if symbol == "XRPUSDT" then 100000.0
    else if symbol == "BNBUSDT" then 200000.0
    else 300000.0
  }

  predicate Whale(t: Trade) {
    t.price * t.quantity >= WhaleThreshold(t.symbol)
  }

  function When(b: bool, x: real): real {
    if b then x else 0.0
  }

  function One(b: bool): int {
    if b then 1 else 0
  }

  /** What one trade adds.  A NULL maker flag makes every buy and sell condition NULL, so not TRUE. */
  function Contribution(t: Trade): Totals {
    var buy, sell := t.maker == Some(false), t.maker == Some(true);
    var futures, spot := t.source == "futures", t.source == "spot";
    Totals(When(futures && buy, t.quantity), When(futures && sell, t.quantity), One(futures),
           When(spot && buy, t.quantity), When(spot && sell, t.quantity), One(spot),
           One(Whale(t) && buy), One(Whale(t) && sell),
           When(Whale(t) && buy, t.quantity), When(Whale(t) && sell, t.quantity))
  }

  /** `from_unixtime`: whole seconds, towards zero. */
  function Second(ms: int): int {
    if ms >= 0 then ms / 1000 else -(-ms / 1000)
  }

  /** The start of the window of the given width that holds a second. */
  function Bucket(second: int, width: int): int
    requires width > 0
  {
    second / width * width
  }

  // ------------------------------------------------------------------ grouping

  /** The sum of f over the elements that satisfy p. */
  function SumWhere<T>(xs: seq<T>, p: T -> bool, f: T -> Totals): Totals {
    if xs == [] then ZERO
    else
      var last := xs[|xs| - 1];
      var before := SumWhere(xs[..|xs| - 1], p, f);
      if p(last) then before.Add(f(last)) else before
  }

  function AddTo<K(==)>(m: map<K, Totals>, k: K, t: Totals): map<K, Totals> {
    m[k := (if k in m then m[k] else ZERO).Add(t)]
  }

  /** The streaming state after more elements have been added to groups. */
  function Accumulate<T, K(==)>(m: map<K, Totals>, xs: seq<T>, key: T -> K, f: T -> Totals): map<K, Totals> {
    if xs == [] then m
    else
      var last := xs[|xs| - 1];
      AddTo(Accumulate(m, xs[..|xs| - 1], key, f), key(last), f(last))
  }

  /** GROUP BY key with the sum of f. */
  function GroupBy<T, K(==)>(xs: seq<T>, key: T -> K, f: T -> Totals): map<K, Totals> {
    Accumulate(map[], xs, key, f)
  }

  lemma {:induction false} GroupIsSum<T, K>(xs: seq<T>, key: T -> K, f: T -> Totals, k: K, p: T -> bool)
    requires forall x :: p(x) <==> key(x) == k
    ensures k in GroupBy(xs, key, f) <==> exists x :: x in xs && key(x) == k
    ensures (if k in GroupBy(xs, key, f) then GroupBy(xs, key, f)[k] else ZERO) == SumWhere(xs, p, f)
  {
    if xs != [] {
      var rest, last := xs[..|xs| - 1], xs[|xs| - 1];
      GroupIsSum(rest, key, f, k, p);
      assert forall x :: x in xs <==> x in rest || x == last;
    }
  }

  lemma {:induction false} AccumulateAppend<T, K>(m: map<K, Totals>, a: seq<T>, b: seq<T>, key: T -> K, f: T -> Totals)
    ensures Accumulate(m, a + b, key, f) == Accumulate(Accumulate(m, a, key, f), b, key, f)
  {
    if b == [] {
      assert a + b == a;
    } else {
      AccumulateAppend(m, a, b[..|b| - 1], key, f);
      assert (a + b)[..|a + b| - 1] == a + b[..|b| - 1];
    }
  }

  lemma {:induction false} SumSplit<T>(xs: seq<T>, p: T -> bool, q: T -> bool, r: T -> bool, f: T -> Totals)
    requires forall x :: !(p(x) && q(x)) && (r(x) <==> p(x) || q(x))
    ensures SumWhere(xs, r, f) == SumWhere(xs, p, f).Add(SumWhere(xs, q, f))
  {
    if xs != [] {
      SumSplit(xs[..|xs| - 1], p, q, r, f);
    }
  }

  lemma {:induction false} SumNone<T>(xs: seq<T>, p: T -> bool, f: T -> Totals)
    requires forall x | x in xs :: !p(x)
    ensures SumWhere(xs, p, f) == ZERO
  {
    if xs != [] {
      SumNone(xs[..|xs| - 1], p, f);
    }
  }

  // ------------------------------------------------------------------ micro-batches

  /** The group state and the table that the emitted rows are upserted into. */
  datatype Stream<!K> = Stream(state: map<K, Totals>, table: map<K, Totals>)

  /** One micro-batch in update mode: every touched group is emitted with its new totals. */
  function Batch<T(==), K(==)>(s: Stream<K>, batch: seq<T>, key: T -> K, f: T -> Totals): Stream<K> {
    var state := Accumulate(s.state, batch, key, f);
    Stream(state, s.table + map x | x in batch && key(x) in state :: key(x) := state[key(x)])
  }

  function Batches<T(==), K(==)>(batches: seq<seq<T>>, key: T -> K, f: T -> Totals): Stream<K> {
    if batches == [] then Stream(map[], map[])
    else Batch(Batches(batches[..|batches| - 1], key, f), batches[|batches| - 1], key, f)
  }

  function Flatten<T>(batches: seq<seq<T>>): seq<T> {
    if batches == [] then [] else Flatten(batches[..|batches| - 1]) + batches[|batches| - 1]
  }

  lemma {:induction false} TouchedOnly<T, K>(m: map<K, Totals>, batch: seq<T>, key: T -> K, f: T -> Totals, k: K)
    ensures (exists x :: x in batch && key(x) == k) ==> k in Accumulate(m, batch, key, f)
    ensures (forall x | x in batch :: key(x) != k) ==>
              (k in Accumulate(m, batch, key, f) <==> k in m) && (k in m ==> Accumulate(m, batch, key, f)[k] == m[k])
  {
    if batch != [] {
      var rest, last := batch[..|batch| - 1], batch[|batch| - 1];
      TouchedOnly(m, rest, key, f, k);
      assert forall x :: x in batch <==> x in rest || x == last;
    }
  }

  /** A micro-batch keeps the table equal to the state. */
  lemma {:induction false} BatchInStep<T, K>(s: Stream<K>, batch: seq<T>, key: T -> K, f: T -> Totals)
    requires s.table == s.state
    ensures Batch(s, batch, key, f).table == Accumulate(s.state, batch, key, f)
  {
    var state, table := Accumulate(s.state, batch, key, f), Batch(s, batch, key, f).table;
    hide Accumulate;
    forall k | k in state ensures k in table {
      TouchedOnly(s.state, batch, key, f, k);
    }
    forall k | k in table ensures k in state && table[k] == state[k] {
      TouchedOnly(s.state, batch, key, f, k);
    }
  }

  /** However the input is cut into micro-batches, the table holds the groups of the whole input. */
  lemma {:induction false} MicroBatchesAgree<T, K>(batches: seq<seq<T>>, key: T -> K, f: T -> Totals)
    ensures Batches(batches, key, f).table == Batches(batches, key, f).state == GroupBy(Flatten(batches), key, f)
  {
    if batches != [] {
      hide Accumulate;
      var before, batch := batches[..|batches| - 1], batches[|batches| - 1];
      MicroBatchesAgree(before, key, f);
      AccumulateAppend(map[], Flatten(before), batch, key, f);
      BatchInStep(Batches(before, key, f), batch, key, f);
    }
  }

  // ------------------------------------------------------------------ aggregating twice

  /** A row of a table: its key and its sums. */
  datatype Row<K> = Row(key: K, totals: Totals)

  function RowTotals<K>(r: Row<K>): Totals {
    r.totals
  }

  /** rows holds each entry of the table once, in any order. */
  ghost predicate Lists<K(!new)>(rows: seq<Row<K>>, table: map<K, Totals>) {
    && (forall i, j | 0 <= i < j < |rows| :: rows[i].key != rows[j].key)
    && (forall k :: (exists i :: 0 <= i < |rows| && rows[i].key == k) <==> k in table)
    && (forall i | 0 <= i < |rows| :: rows[i].key in table && rows[i].totals == table[rows[i].key])
  }

  /** The rows of some coarse group together hold the sum over the elements whose fine key is among theirs. */
  lemma {:induction false} RowsCover<T(!new), K(!new)>(rows: seq<Row<K>>, xs: seq<T>, key: T -> K, f: T -> Totals,
                                                       inGroup: Row<K> -> bool, covered: T -> bool)
    requires forall i, j | 0 <= i < j < |rows| :: rows[i].key != rows[j].key
    requires forall i | 0 <= i < |rows| ::
               rows[i].key in GroupBy(xs, key, f) && rows[i].totals == GroupBy(xs, key, f)[rows[i].key]
    requires forall x :: covered(x) <==> exists i :: 0 <= i < |rows| && inGroup(rows[i]) && rows[i].key == key(x)
    ensures SumWhere(rows, inGroup, RowTotals<K>) == SumWhere(xs, covered, f)
    decreases |rows|
  {
    if rows == [] {
      SumNone(xs, covered, f);
    } else {
      var rest, last := rows[..|rows| - 1], rows[|rows| - 1];
      var coveredRest := (x: T) => covered(x) && !(inGroup(last) && key(x) == last.key);
      var coveredLast := (x: T) => inGroup(last) && key(x) == last.key;
      assert forall i | 0 <= i < |rest| :: rest[i] == rows[i];
      RowsCover(rest, xs, key, f, inGroup, coveredRest);
      SumSplit(xs, coveredRest, coveredLast, covered, f);
      if inGroup(last) {
        GroupIsSum(xs, key, f, last.key, coveredLast);
      } else {
        SumNone(xs, coveredLast, f);
      }
    }
  }

  lemma {:induction false} SumSame<T>(xs: seq<T>, p: T -> bool, q: T -> bool, f: T -> Totals)
    requires forall x | x in xs :: p(x) == q(x)
    ensures SumWhere(xs, p, f) == SumWhere(xs, q, f)
  {
    if xs != [] {
      SumSame(xs[..|xs| - 1], p, q, f);
    }
  }

  lemma RowFor<T(!new), K(!new)>(rows: seq<Row<K>>, xs: seq<T>, key: T -> K, f: T -> Totals, x: T) returns (r: Row<K>)
    requires Lists(rows, GroupBy(xs, key, f)) && x in xs
    ensures r in rows && r.key == key(x)
  {
    hide Accumulate, GroupBy, SumWhere;
    GroupIsSum(xs, key, f, key(x), (y: T) => key(y) == key(x));
    var i :| 0 <= i < |rows| && rows[i].key == key(x);
    r := rows[i];
  }

  lemma ElementFor<T(!new), K(!new)>(rows: seq<Row<K>>, xs: seq<T>, key: T -> K, f: T -> Totals,
                     r: Row<K>) returns (x: T)
    requires Lists(rows, GroupBy(xs, key, f)) && r in rows
    ensures x in xs && r.key == key(x)
  {
    hide Accumulate, GroupBy, SumWhere;
    GroupIsSum(xs, key, f, r.key, (y: T) => key(y) == r.key);
    x :| x in xs && key(x) == r.key;
  }

  /** The coarse key of an element is that of its row. */
  ghost predicate Coarsens<T(!new), K(!new), C(!new)>(key: T -> K, rowCoarse: Row<K> -> C, coarse: T -> C) {
    forall x: T, r: Row<K> | r.key == key(x) :: coarse(x) == rowCoarse(r)
  }

  lemma CoarseMembers<T(!new), K(!new), C(!new)>(rows: seq<Row<K>>, xs: seq<T>, key: T -> K, f: T -> Totals,
                                                 rowCoarse: Row<K> -> C, coarse: T -> C, c: C)
    requires Lists(rows, GroupBy(xs, key, f)) && Coarsens(key, rowCoarse, coarse)
    ensures (exists r :: r in rows && rowCoarse(r) == c) <==> (exists x :: x in xs && coarse(x) == c)
  {
    hide Lists;
    if exists r :: r in rows && rowCoarse(r) == c {
      var r :| r in rows && rowCoarse(r) == c;
      var x := ElementFor(rows, xs, key, f, r);
    }
    if exists x :: x in xs && coarse(x) == c {
      var x :| x in xs && coarse(x) == c;
      var r := RowFor(rows, xs, key, f, x);
    }
  }

  lemma {:induction false} CoarseSums<T(!new), K(!new)>(rows: seq<Row<K>>, xs: seq<T>, key: T -> K, f: T -> Totals,
                                              inGroup: Row<K> -> bool, wanted: T -> bool)
    requires Lists(rows, GroupBy(xs, key, f))
    requires forall x: T, r: Row<K> | r.key == key(x) :: inGroup(r) == wanted(x)
    ensures SumWhere(rows, inGroup, RowTotals<K>) == SumWhere(xs, wanted, f)
  {
    hide GroupBy, SumWhere, RowTotals;
    var covered := (x: T) => exists i :: 0 <= i < |rows| && inGroup(rows[i]) && rows[i].key == key(x);
    RowsCover(rows, xs, key, f, inGroup, covered);
    forall x | x in xs ensures covered(x) == wanted(x) {
      var r := RowFor(rows, xs, key, f, x);
    }
    SumSame(xs, covered, wanted, f);
  }

  lemma SameGroup<T(!new), K(!new), C(!new)>(rows: seq<Row<K>>, xs: seq<T>, key: T -> K, f: T -> Totals,
                                             rowCoarse: Row<K> -> C, coarse: T -> C, c: C)
    requires Lists(rows, GroupBy(xs, key, f)) && Coarsens(key, rowCoarse, coarse)
    ensures var twice, once := GroupBy(rows, rowCoarse, RowTotals<K>), GroupBy(xs, coarse, f);
            && (c in twice <==> c in once)
            && (c in twice && c in once ==> twice[c] == once[c])
  {
    hide GroupBy, SumWhere, Lists, RowTotals;
    var inGroup, wanted := (r: Row<K>) => rowCoarse(r) == c, (x: T) => coarse(x) == c;
    GroupIsSum(rows, rowCoarse, RowTotals<K>, c, inGroup);
    GroupIsSum(xs, coarse, f, c, wanted);
    CoarseMembers(rows, xs, key, f, rowCoarse, coarse, c);
    CoarseSums(rows, xs, key, f, inGroup, wanted);
  }

  /** Grouping the rows of a table by a coarser key is grouping the input by the coarser key. */
  lemma TwoStages<T(!new), K(!new), C(!new)>(rows: seq<Row<K>>, xs: seq<T>, key: T -> K, f: T -> Totals,
                                             rowCoarse: Row<K> -> C, coarse: T -> C)
    requires Lists(rows, GroupBy(xs, key, f)) && Coarsens(key, rowCoarse, coarse)
    ensures GroupBy(rows, rowCoarse, RowTotals<K>) == GroupBy(xs, coarse, f)
  {
    hide GroupBy, Lists, Coarsens;
    var twice, once := GroupBy(rows, rowCoarse, RowTotals<K>), GroupBy(xs, coarse, f);
    forall c ensures c in twice <==> c in once
             ensures c in twice && c in once ==> twice[c] == once[c] {
      SameGroup(rows, xs, key, f, rowCoarse, coarse, c);
    }
  }

  // ------------------------------------------------------------------ the CVD tables

  /** A window start and a symbol. */
  type Window = (int, string)

  function Window5(t: Trade): Window {
    (Bucket(Second(t.eventMs), 5), t.symbol)
  }

  function Window10(t: Trade): Window {
    (Bucket(Second(t.eventMs), 10), t.symbol)
  }

  /** The mart's grouping of 5-second rows. */
  function MartWindow(r: Row<Window>): Window {
    (Bucket(r.key.0, 10), r.key.1)
  }

  /** `aggregate`: the groups of trades by 5-second window and symbol. */
  function Aggregate(trades: seq<Trade>): map<Window, Totals> {
    GroupBy(trades, Window5, Contribution)
  }

  /** The windows of the 10-second mart contain whole 5-second windows. */
  lemma BucketsNest(second: int)
    ensures Bucket(Bucket(second, 5), 10) == Bucket(second, 10)
  {
    var q, r := second / 10, second % 10;
    assert second == 10 * q + r && 0 <= r < 10;
    assert second / 5 == if r < 5 then 2 * q else 2 * q + 1;
  }

  /** The summed columns of the 10-second mart, built from the rows of the 5-second table in any
      order, are those of aggregating the raw trades at 10 seconds. */
  lemma TenSecondMart(rows: seq<Row<Window>>, trades: seq<Trade>)
    requires Lists(rows, Aggregate(trades))
    ensures GroupBy(rows, MartWindow, RowTotals<Window>) == GroupBy(trades, Window10, Contribution)
  {
    hide Second, Lists, GroupBy, Contribution;
    assert Coarsens(Window5, MartWindow, Window10) by {
      forall t: Trade ensures Bucket(Window5(t).0, 10) == Window10(t).0 {
        BucketsNest(Second(t.eventMs));
      }
    }
    TwoStages(rows, trades, Window5, Contribution, MartWindow, Window10);
  }

  /** The whole path: trades arrive in any micro-batches, the 5-second rows are upserted, and the mart
      sums the rows that it finds. */
  lemma {:induction false} MartOfStream(batches: seq<seq<Trade>>, rows: seq<Row<Window>>)
    requires Lists(rows, Batches(batches, Window5, Contribution).table)
    ensures GroupBy(rows, MartWindow, RowTotals<Window>) == GroupBy(Flatten(batches), Window10, Contribution)
  {
    hide GroupBy, Batches, Lists;
    MicroBatchesAgree(batches, Window5, Contribution);
    TenSecondMart(rows, Flatten(batches));
  }

  /** The delta columns of `select_output`. */
  function FuturesDelta(t: Totals): real {
    t.futuresBuy - t.futuresSell
  }

  function SpotDelta(t: Totals): real {
    t.spotBuy - t.spotSell
  }

  function SumReal<K>(rows: seq<Row<K>>, p: Row<K> -> bool, g: Totals -> real): real {
    if rows == [] then 0.0
    else
      var last := rows[|rows| - 1];
      SumReal(rows[..|rows| - 1], p, g) + if p(last) then g(last.totals) else 0.0
  }

  /** Summing the delta columns of the rows is the delta of the sums. */
  lemma {:induction false} DeltasAdd<K>(rows: seq<Row<K>>, p: Row<K> -> bool)
    ensures SumReal(rows, p, FuturesDelta) == FuturesDelta(SumWhere(rows, p, RowTotals<K>))
    ensures SumReal(rows, p, SpotDelta) == SpotDelta(SumWhere(rows, p, RowTotals<K>))
  {
    if rows != [] {
      DeltasAdd(rows[..|rows| - 1], p);
    }
  }

  // ------------------------------------------------------------------ per-second rollups

  /** The sums in one rollup message: one symbol, one market, one second. */
  datatype Rollup = Rollup(buyQty: real, sellQty: real, tradeCount: int,
                           whaleBuyCount: int, whaleSellCount: int, whaleBuyQty: real, whaleSellQty: real)

  const NO_TRADES := Rollup(0.0, 0.0, 0, 0, 0, 0.0, 0.0)

  /** Symbol, market and second of a trade. */
  type RollupKey = (string, string, int)

  function RollupKeyOf(t: Trade): RollupKey {
    (t.symbol, t.source, Second(t.eventMs))
  }

  /** One trade more in a rollup message. */
  function AddTrade(m: Rollup, t: Trade): Rollup {
    var buy, sell := t.maker == Some(false), t.maker == Some(true);
    Rollup(m.buyQty + When(buy, t.quantity), m.sellQty + When(sell, t.quantity), m.tradeCount + 1,
           m.whaleBuyCount + One(Whale(t) && buy), m.whaleSellCount + One(Whale(t) && sell),
           m.whaleBuyQty + When(Whale(t) && buy, t.quantity), m.whaleSellQty + When(Whale(t) && sell, t.quantity))
  }

  /** The per-second sums of the trades with this key. */
  function RollupOf(trades: seq<Trade>, key: RollupKey): Rollup {
    if trades == [] then NO_TRADES
    else
      var last := trades[|trades| - 1];
      var before := RollupOf(trades[..|trades| - 1], key);
      if RollupKeyOf(last) == key then AddTrade(before, last) else before
  }

  /** `parse_trade_cvd_rollup_data`: quantities go to the columns of the message's market. */
  function ParseRollup(market: string, m: Rollup): Totals {
    var futures, spot := market == "futures", market == "spot";
    Totals(When(futures, m.buyQty), When(futures, m.sellQty), if futures then m.tradeCount else 0,
           When(spot, m.buyQty), When(spot, m.sellQty), if spot then m.tradeCount else 0,
           m.whaleBuyCount, m.whaleSellCount, m.whaleBuyQty, m.whaleSellQty)
  }

  /** `aggregate_rollup`: the window of a parsed rollup message. */
  function RollupWindow5(r: Row<RollupKey>): Window {
    (Bucket(r.key.2, 5), r.key.0)
  }

  /** A parsed message holds the sum of what its trades contribute. */
  lemma {:induction false} RollupIsSum(trades: seq<Trade>, key: RollupKey, p: Trade -> bool)
    requires forall t :: p(t) <==> RollupKeyOf(t) == key
    requires key.1 == "futures" || key.1 == "spot"
    ensures ParseRollup(key.1, RollupOf(trades, key)) == SumWhere(trades, p, Contribution)
  {
    hide Whale;
    if trades != [] {
      RollupIsSum(trades[..|trades| - 1], key, p);
    }
  }

  ghost predicate Traded(trades: seq<Trade>, k: RollupKey) {
    exists t :: t in trades && RollupKeyOf(t) == k
  }

  /** One message for every symbol, market and second that has trades, in any order. */
  ghost predicate RollupsOf(rows: seq<Row<RollupKey>>, trades: seq<Trade>) {
    && (forall i, j | 0 <= i < j < |rows| :: rows[i].key != rows[j].key)
    && (forall k :: (exists i :: 0 <= i < |rows| && rows[i].key == k) <==> Traded(trades, k))
    && (forall i | 0 <= i < |rows| :: rows[i].totals == ParseRollup(rows[i].key.1, RollupOf(trades, rows[i].key)))
  }

  lemma RollupsAreTable(rows: seq<Row<RollupKey>>, trades: seq<Trade>)
    requires RollupsOf(rows, trades) && forall t | t in trades :: t.source == "futures" || t.source == "spot"
    ensures Lists(rows, GroupBy(trades, RollupKeyOf, Contribution))
  {
    hide GroupBy, RollupOf, ParseRollup, SumWhere;
    forall k ensures k in GroupBy(trades, RollupKeyOf, Contribution) <==> Traded(trades, k) {
      GroupIsSum(trades, RollupKeyOf, Contribution, k, (t: Trade) => RollupKeyOf(t) == k);
    }
    forall i | 0 <= i < |rows|
      ensures rows[i].key in GroupBy(trades, RollupKeyOf, Contribution)
              && rows[i].totals == GroupBy(trades, RollupKeyOf, Contribution)[rows[i].key]
    {
      var k := rows[i].key;
      var p := (t: Trade) => RollupKeyOf(t) == k;
      GroupIsSum(trades, RollupKeyOf, Contribution, k, p);
      RollupIsSum(trades, k, p);
    }
  }

  /** Per-second, per-market rollups give the same rows as the raw trades. */
  lemma RollupsAgree(rows: seq<Row<RollupKey>>, trades: seq<Trade>)
    requires RollupsOf(rows, trades) && forall t | t in trades :: t.source == "futures" || t.source == "spot"
    ensures GroupBy(rows, RollupWindow5, RowTotals<RollupKey>) == Aggregate(trades)
  {
    hide Second, GroupBy, Contribution, RollupsOf, Lists;
    RollupsAreTable(rows, trades);
    TwoStages(rows, trades, RollupKeyOf, Contribution, RollupWindow5, Window5);
  }

  // ------------------------------------------------------------------ volumes

  /** Quantities of the trades that satisfy p, with or without a maker flag. */
  function Quantity(trades: seq<Trade>, p: Trade -> bool): real {
    if trades == [] then 0.0
    else
      var last := trades[|trades| - 1];
      Quantity(trades[..|trades| - 1], p) + if p(last) then last.quantity else 0.0
  }

  function Unflagged(trades: seq<Trade>, p: Trade -> bool): real {
    if trades == [] then 0.0
    else
      var last := trades[|trades| - 1];
      Unflagged(trades[..|trades| - 1], p) + if p(last) && last.maker.None? then last.quantity else 0.0
  }

  function CountWhere(trades: seq<Trade>, p: Trade -> bool): int {
    if trades == [] then 0
    else CountWhere(trades[..|trades| - 1], p) + One(p(trades[|trades| - 1]))
  }

  lemma OneTaker(t: Trade)
    requires t.quantity >= 0.0 && (t.source == "futures" || t.source == "spot")
    ensures var s := Contribution(t);
            && s.futuresBuy + s.futuresSell + s.spotBuy + s.spotSell == (if t.maker.None? then 0.0 else t.quantity)
            && 0.0 <= s.whaleBuyVol <= s.futuresBuy + s.spotBuy
            && 0.0 <= s.whaleSellVol <= s.futuresSell + s.spotSell
            && s.whaleBuyCount + s.whaleSellCount <= s.futuresCount + s.spotCount == 1
  {
    hide Whale;
    assert |"futures"| == 7 && |"spot"| == 4;
    match t.maker {
      case None =>
      case Some(maker) => assert t.maker == Some(true) || t.maker == Some(false);
    }
  }

  /** In every group the four taker volumes add up to the traded quantity less that of trades without
      a maker flag, the trade counts to the number of trades, and the whale columns never exceed the
      taker columns. */
  lemma {:induction false} TakerVolumes(trades: seq<Trade>, p: Trade -> bool)
    requires forall t | t in trades :: t.quantity >= 0.0 && (t.source == "futures" || t.source == "spot")
    ensures var s := SumWhere(trades, p, Contribution);
            && s.futuresBuy + s.futuresSell + s.spotBuy + s.spotSell == Quantity(trades, p) - Unflagged(trades, p)
            && 0.0 <= s.whaleBuyVol <= s.futuresBuy + s.spotBuy
            && 0.0 <= s.whaleSellVol <= s.futuresSell + s.spotSell
            && s.whaleBuyCount + s.whaleSellCount <= s.futuresCount + s.spotCount == CountWhere(trades, p)
    ensures (forall t | t in trades :: t.maker.Some?) ==> Unflagged(trades, p) == 0.0
  {
    hide Contribution;
    if trades != [] {
      var last := trades[|trades| - 1];
      TakerVolumes(trades[..|trades| - 1], p);
      OneTaker(last);
    }
  }

  // ------------------------------------------------------------------ what a row holds, in the events' own terms

  /** The first event time, in milliseconds, of a second; seconds round towards zero. */
  function FirstMs(second: int): int {
    if second > 0 then second * 1000 else second * 1000 - 999
  }

  /** The trade is of the symbol and happened in the `width` seconds from `start` on. */
  function Within(start: int, width: int, symbol: string): Trade -> bool {
    (t: Trade) => t.symbol == symbol && FirstMs(start) <= t.eventMs < FirstMs(start + width)
  }

  lemma SecondBounds(ms: int, second: int)
    ensures Second(ms) == second <==> FirstMs(second) <= ms < FirstMs(second + 1)
    ensures Second(ms) >= second <==> FirstMs(second) <= ms
  {
  }

  lemma BucketBounds(second: int, start: int, width: int)
    requires width > 0
    ensures Bucket(second, width) == start <==> start % width == 0 && start <= second < start + width
  {
    var q, r := second / width, second % width;
    assert second == q * width + r;
    assert Bucket(second, width) == q * width == width * q;
    MultipleOf(width, q);
    if start % width == 0 && start <= second < start + width {
      var p := start / width;
      assert start == p * width;
      OneMultiple(width, p, q, second);
    }
  }

  lemma MultipleOf(width: int, q: int)
    requires width > 0
    ensures q * width % width == 0
  {
    DivUnique(q * width, width, q, 0);
  }

  lemma DivUnique(x: int, width: int, q: int, r: int)
    requires width > 0 && x == q * width + r && 0 <= r < width
    ensures x / width == q && x % width == r
  {
    var p := x / width;
    assert x == p * width + x % width;
    OneMultiple(width, p, q, x);
  }

  lemma OneMultiple(width: int, p: int, q: int, x: int)
    requires width > 0 && p * width <= x < p * width + width && q * width <= x < q * width + width
    ensures p == q
  {
    if p < q {
      ScaledOrder(width, p, q);
    } else if q < p {
      ScaledOrder(width, q, p);
    }
  }

  lemma {:induction false} ScaledOrder(width: int, p: int, q: int)
    requires width > 0 && p < q
    ensures p * width + width <= q * width
    decreases q - p
  {
    assert q * width == (q - 1) * width + width;
    if p < q - 1 {
      ScaledOrder(width, p, q - 1);
    }
  }

  /** A trade falls into a window exactly when the window's start is a multiple of its width and the
      trade is of its symbol and happened in its milliseconds. */
  lemma WindowExactly(t: Trade, w: Window)
    ensures Window5(t) == w <==> w.0 % 5 == 0 && Within(w.0, 5, w.1)(t)
    ensures Window10(t) == w <==> w.0 % 10 == 0 && Within(w.0, 10, w.1)(t)
  {
    hide Second, Bucket;
    var s := Second(t.eventMs);
    BucketBounds(s, w.0, 5);
    BucketBounds(s, w.0, 10);
    SecondBounds(t.eventMs, w.0);
    SecondBounds(t.eventMs, w.0 + 5);
    SecondBounds(t.eventMs, w.0 + 10);
  }

  /** And into the rollup message of its symbol, market and second. */
  lemma RollupKeyExactly(t: Trade, k: RollupKey)
    ensures RollupKeyOf(t) == k <==> t.source == k.1 && Within(k.2, 1, k.0)(t)
  {
    SecondBounds(t.eventMs, k.2);
  }

  /** The window of a trade since 1970. */
  lemma WindowOfMs(t: Trade, q: int)
    requires t.eventMs >= 0 && q == t.eventMs / 5000
    ensures Window5(t) == (5 * q, t.symbol)
  {
    assert 5000 * q <= t.eventMs < 5000 * q + 5000;
    WindowExactly(t, (5 * q, t.symbol));
    hide Window5;
  }

  /** Two trades of a symbol since 1970 share a row exactly when they share five seconds. */
  lemma ShareRow(a: Trade, b: Trade)
    requires a.eventMs >= 0 && b.eventMs >= 0
    ensures Window5(a) == Window5(b) <==> a.symbol == b.symbol && a.eventMs / 5000 == b.eventMs / 5000
  {
    hide Window5;
    WindowOfMs(a, a.eventMs / 5000);
    WindowOfMs(b, b.eventMs / 5000);
  }

  /** The trade's value is at least the whale threshold of its symbol. */
  predicate OfWhale(t: Trade) {
    var value := t.price * t.quantity;
    || (t.symbol == "BTCUSDT" && value >= 500_000.0)
    || (t.symbol == "ETHUSDT" && value >= 300_000.0)
    || (t.symbol in {"SOLUSDT", "XRPUSDT"} && value >= 100_000.0)
    || (t.symbol == "BNBUSDT" && value >= 200_000.0)
    || (t.symbol !in {"BTCUSDT", "ETHUSDT", "SOLUSDT", "XRPUSDT", "BNBUSDT"} && value >= 300_000.0)
  }

  function OnMarket(p: Trade -> bool, source: string): Trade -> bool {
    (t: Trade) => p(t) && t.source == source
  }

  /** The taker bought when the maker sold, so when the buyer is not the maker. */
  function Bought(p: Trade -> bool): Trade -> bool {
    (t: Trade) => p(t) && t.maker == Some(false)
  }

  function Sold(p: Trade -> bool): Trade -> bool {
    (t: Trade) => p(t) && t.maker == Some(true)
  }

  function ByWhale(p: Trade -> bool): Trade -> bool {
    (t: Trade) => p(t) && OfWhale(t)
  }

  /** The columns of a row are sums over the trades that satisfy p. */
  ghost predicate Sums(row: Totals, trades: seq<Trade>, p: Trade -> bool) {
    var futures, spot := OnMarket(p, "futures"), OnMarket(p, "spot");
    && row.futuresBuy == Quantity(trades, Bought(futures)) && row.futuresSell == Quantity(trades, Sold(futures))
    && row.spotBuy == Quantity(trades, Bought(spot)) && row.spotSell == Quantity(trades, Sold(spot))
    && row.futuresCount == CountWhere(trades, futures) && row.spotCount == CountWhere(trades, spot)
    && row.whaleBuyVol == Quantity(trades, ByWhale(Bought(p))) && row.whaleSellVol == Quantity(trades, ByWhale(Sold(p)))
    && row.whaleBuyCount == CountWhere(trades, ByWhale(Bought(p)))
    && row.whaleSellCount == CountWhere(trades, ByWhale(Sold(p)))
    && FuturesDelta(row) == Quantity(trades, Bought(futures)) - Quantity(trades, Sold(futures))
    && SpotDelta(row) == Quantity(trades, Bought(spot)) - Quantity(trades, Sold(spot))
  }

  lemma WhaleExactly(t: Trade)
    ensures Whale(t) <==> OfWhale(t)
  {
  }

  /** A column to which every trade of q, among those of p, adds its quantity, and no other. */
  lemma {:induction false} QuantityColumn(trades: seq<Trade>, p: Trade -> bool, q: Trade -> bool, c: Totals -> real)
    requires c(ZERO) == 0.0 && forall x: Totals, y: Totals :: c(x.Add(y)) == c(x) + c(y)
    requires forall t :: (q(t) ==> p(t)) && (p(t) ==> c(Contribution(t)) == if q(t) then t.quantity else 0.0)
    ensures c(SumWhere(trades, p, Contribution)) == Quantity(trades, q)
  {
    hide Contribution, Totals.Add;
    if trades != [] {
      QuantityColumn(trades[..|trades| - 1], p, q, c);
    }
  }

  /** A column to which each of these trades adds one. */
  lemma {:induction false} CountColumn(trades: seq<Trade>, p: Trade -> bool, q: Trade -> bool, c: Totals -> int)
    requires c(ZERO) == 0 && forall x: Totals, y: Totals :: c(x.Add(y)) == c(x) + c(y)
    requires forall t :: (q(t) ==> p(t)) && (p(t) ==> c(Contribution(t)) == if q(t) then 1 else 0)
    ensures c(SumWhere(trades, p, Contribution)) == CountWhere(trades, q)
  {
    hide Contribution, Totals.Add;
    if trades != [] {
      CountColumn(trades[..|trades| - 1], p, q, c);
    }
  }

  lemma SumsOfMarkets(trades: seq<Trade>, p: Trade -> bool)
    ensures var row, futures, spot := SumWhere(trades, p, Contribution), OnMarket(p, "futures"), OnMarket(p, "spot");
            && row.futuresBuy == Quantity(trades, Bought(futures)) && row.futuresSell == Quantity(trades, Sold(futures))
            && row.spotBuy == Quantity(trades, Bought(spot)) && row.spotSell == Quantity(trades, Sold(spot))
            && row.futuresCount == CountWhere(trades, futures) && row.spotCount == CountWhere(trades, spot)
  {
    hide Whale, SumWhere, Quantity, CountWhere;
    var futures, spot := OnMarket(p, "futures"), OnMarket(p, "spot");
    QuantityColumn(trades, p, Bought(futures), (x: Totals) => x.futuresBuy);
    QuantityColumn(trades, p, Sold(futures), (x: Totals) => x.futuresSell);
    QuantityColumn(trades, p, Bought(spot), (x: Totals) => x.spotBuy);
    QuantityColumn(trades, p, Sold(spot), (x: Totals) => x.spotSell);
    CountColumn(trades, p, futures, (x: Totals) => x.futuresCount);
    CountColumn(trades, p, spot, (x: Totals) => x.spotCount);
  }

  lemma SumsOfWhales(trades: seq<Trade>, p: Trade -> bool)
    ensures var row, bought, sold := SumWhere(trades, p, Contribution), ByWhale(Bought(p)), ByWhale(Sold(p));
            && row.whaleBuyVol == Quantity(trades, bought) && row.whaleSellVol == Quantity(trades, sold)
            && row.whaleBuyCount == CountWhere(trades, bought) && row.whaleSellCount == CountWhere(trades, sold)
  {
    hide Whale, OfWhale, SumWhere, Quantity, CountWhere;
    var bought, sold := ByWhale(Bought(p)), ByWhale(Sold(p));
    forall t ensures Whale(t) <==> OfWhale(t) {
      WhaleExactly(t);
    }
    QuantityColumn(trades, p, bought, (x: Totals) => x.whaleBuyVol);
    QuantityColumn(trades, p, sold, (x: Totals) => x.whaleSellVol);
    CountColumn(trades, p, bought, (x: Totals) => x.whaleBuyCount);
    CountColumn(trades, p, sold, (x: Totals) => x.whaleSellCount);
  }

  lemma SumsOfGroup(trades: seq<Trade>, p: Trade -> bool)
    ensures Sums(SumWhere(trades, p, Contribution), trades, p)
  {
    hide SumWhere, Quantity, CountWhere, OnMarket, Bought, Sold, ByWhale;
    SumsOfMarkets(trades, p);
    SumsOfWhales(trades, p);
  }

  /** The row of a window is there exactly when a trade happened in its milliseconds, and its columns are
      sums over those trades. */
  lemma RowHolds(trades: seq<Trade>, w: Window)
    ensures w in Aggregate(trades) <==> w.0 % 5 == 0 && exists t :: t in trades && Within(w.0, 5, w.1)(t)
    ensures w in Aggregate(trades) ==> Sums(Aggregate(trades)[w], trades, Within(w.0, 5, w.1))
  {
    hide GroupBy, Sums, Second, Bucket, Contribution;
    var p := (t: Trade) => w.0 % 5 == 0 && Within(w.0, 5, w.1)(t);
    forall t ensures p(t) <==> Window5(t) == w {
      WindowExactly(t, w);
    }
    GroupIsSum(trades, Window5, Contribution, w, p);
    if w.0 % 5 == 0 {
      SumSame(trades, p, Within(w.0, 5, w.1), Contribution);
      SumsOfGroup(trades, Within(w.0, 5, w.1));
    }
  }

  /** So is the row of the 10-second mart over the whole path. */
  lemma MartRowHolds(batches: seq<seq<Trade>>, rows: seq<Row<Window>>, w: Window)
    requires Lists(rows, Batches(batches, Window5, Contribution).table)
    ensures var mart, trades := GroupBy(rows, MartWindow, RowTotals<Window>), Flatten(batches);
            && (w in mart <==> w.0 % 10 == 0 && exists t :: t in trades && Within(w.0, 10, w.1)(t))
            && (w in mart ==> Sums(mart[w], trades, Within(w.0, 10, w.1)))
  {
    hide GroupBy, Sums, Second, Bucket, Contribution, Lists, Batches;
    var trades := Flatten(batches);
    MartOfStream(batches, rows);
    var p := (t: Trade) => w.0 % 10 == 0 && Within(w.0, 10, w.1)(t);
    forall t ensures p(t) <==> Window10(t) == w {
      WindowExactly(t, w);
    }
    GroupIsSum(trades, Window10, Contribution, w, p);
    if w.0 % 10 == 0 {
      SumSame(trades, p, Within(w.0, 10, w.1), Contribution);
      SumsOfGroup(trades, Within(w.0, 10, w.1));
    }
  }
}
