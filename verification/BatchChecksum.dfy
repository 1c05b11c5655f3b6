/**
  The order-insensitive audit checksum of a batch: the sum of the row hashes in wrapping 64-bit
  arithmetic.  The row hash is a parameter.
*/
module BatchChecksum {
  import opened PyText

  const WORD: nat := 0x1_0000_0000_0000_0000

  type Word = n: nat | n < WORD witness 0

  /** The hash of one normalised row. */
  type RowHash = seq<string> -> nat

  /** A cell is NULL or has a text form; rows are keyed by column, so they have no column order. */
  datatype Frame = Frame(columns: seq<string>, rows: seq<map<string, Option<string>>>)

  const CHECKSUM_COLUMNS := [
    "symbol", "ts", "event_time", "window_start", "window_end", "ratio_type", "market", "mark_price",
    "open_interest", "funding_rate", "futures_spread", "spot_spread", "futures_cvd_delta", "spot_cvd_delta",
    "liq_long_usd", "liq_short_usd"]

  // ------------------------------------------------------------------ the sorted column order

  /** Python's order on text. */
  predicate TextLe(a: string, b: string) {
    a == [] || (b != [] && (a[0] < b[0] || (a[0] == b[0] && TextLe(a[1..], b[1..]))))
  }

  lemma {:induction false} TextLeTotal(a: string, b: string)
    ensures TextLe(a, b) || TextLe(b, a)
    ensures TextLe(a, b) && TextLe(b, a) ==> a == b
  {
    if a != [] && b != [] && a[0] == b[0] {
      TextLeTotal(a[1..], b[1..]);
      assert a == [a[0]] + a[1..] && b == [b[0]] + b[1..];
    }
  }

  lemma {:induction false} TextLeTransitive(a: string, b: string, c: string)
    requires TextLe(a, b) && TextLe(b, c)
    ensures TextLe(a, c)
  {
    if a != [] && a[0] == b[0] && b[0] == c[0] {
      TextLeTransitive(a[1..], b[1..], c[1..]);
    }
  }

  ghost predicate Sorted(s: seq<string>) {
    forall i, j | 0 <= i <= j < |s| :: TextLe(s[i], s[j])
  }

  lemma SameLength<T>(a: seq<T>, b: seq<T>)
    requires multiset(a) == multiset(b)
    ensures |a| == |b|
  {
    assert |multiset(a)| == |a| && |multiset(b)| == |b|;
  }

  function Insert(x: string, s: seq<string>): (r: seq<string>)
    ensures multiset(r) == multiset(s) + multiset{x}
  {
    if s == [] || TextLe(x, s[0]) then [x] + s
    else
      assert s == [s[0]] + s[1..];
      [s[0]] + Insert(x, s[1..])
  }

  /** `sorted`. */
  function Sort(s: seq<string>): (r: seq<string>)
    ensures multiset(r) == multiset(s)
  {
    if s == [] then []
    else
      assert s == [s[0]] + s[1..];
      Insert(s[0], Sort(s[1..]))
  }

  lemma {:induction false} InsertSorted(x: string, s: seq<string>)
    requires Sorted(s)
    ensures Sorted(Insert(x, s))
  {
    TextLeTotal(x, x);
    if s == [] {
    } else if TextLe(x, s[0]) {
      forall j | 0 <= j < |s| ensures TextLe(x, s[j]) {
        if j > 0 {
          TextLeTransitive(x, s[0], s[j]);
        }
      }
    } else {
      TextLeTotal(x, s[0]);
      var t := Insert(x, s[1..]);
      InsertSorted(x, s[1..]);
      forall j | 0 <= j < |t| ensures TextLe(s[0], t[j]) {
        assert t[j] in multiset(t);
        assert t[j] == x || t[j] in s[1..];
      }
    }
  }

  lemma {:induction false} SortSorted(s: seq<string>)
    ensures Sorted(Sort(s))
  {
    if s != [] {
      SortSorted(s[1..]);
      InsertSorted(s[0], Sort(s[1..]));
    }
  }

  lemma SameHead(a: seq<string>, b: seq<string>)
    requires Sorted(a) && Sorted(b) && multiset(a) == multiset(b) && a != [] && b != []
    ensures a[0] == b[0]
  {
    hide TextLe;
    var i := PositionOf(a[0], a, b);
    var j := PositionOf(b[0], b, a);
    TextLeTotal(a[0], b[0]);
  }

  lemma {:induction false} SortedUnique(a: seq<string>, b: seq<string>)
    requires Sorted(a) && Sorted(b) && multiset(a) == multiset(b)
    ensures a == b
  {
    SameLength(a, b);
    if a != [] {
      TailSorted(a);
      TailSorted(b);
      hide Sorted;
      SameHead(a, b);
      SameTails(a, b);
      SortedUnique(a[1..], b[1..]);
      SameParts(a, b);
    }
  }

  lemma TailSorted(s: seq<string>)
    requires Sorted(s) && s != []
    ensures Sorted(s[1..])
  {
  }

  lemma SameTails(a: seq<string>, b: seq<string>)
    requires a != [] && b != [] && a[0] == b[0] && multiset(a) == multiset(b)
    ensures multiset(a[1..]) == multiset(b[1..])
  {
    MultisetWithout(a, 0);
    MultisetWithout(b, 0);
    assert Without(a, 0) == a[1..] && Without(b, 0) == b[1..];
  }

  lemma SameParts(a: seq<string>, b: seq<string>)
    requires a != [] && b != [] && a[0] == b[0] && a[1..] == b[1..]
    ensures a == b
  {
    assert a == [a[0]] + a[1..] && b == [b[0]] + b[1..];
  }

  // ------------------------------------------------------------------ the checksum

  function Present(names: seq<string>, columns: seq<string>): seq<string> {
    if names == [] then []
    else (if names[0] in columns then [names[0]] else []) + Present(names[1..], columns)
  }

  function SelectedColumns(columns: seq<string>): seq<string> {
    var known := Present(CHECKSUM_COLUMNS, columns);
    if known == [] then Sort(columns) else known
  }

  /** One normalised row: the text of each selected cell, `<NA>` for NULL. */
  function Normalise(row: map<string, Option<string>>, columns: seq<string>): seq<string> {
    if columns == [] then []
    else
      [if columns[0] in row && row[columns[0]].Some? then row[columns[0]].value else "<NA>"]
      + Normalise(row, columns[1..])
  }

  function NormaliseAll(rows: seq<map<string, Option<string>>>, columns: seq<string>): (r: seq<seq<string>>)
    ensures |r| == |rows|
    ensures forall k | 0 <= k < |rows| :: r[k] == Normalise(rows[k], columns)
  {
    seq(|rows|, k requires 0 <= k < |rows| => Normalise(rows[k], columns))
  }

  function SumBy<T>(xs: seq<T>, f: T -> nat): nat {
    if xs == [] then 0 else f(xs[0]) + SumBy(xs[1..], f)
  }

  lemma {:induction false} PresentExactly(names: seq<string>, columns: seq<string>)
    ensures forall n :: n in Present(names, columns) <==> n in names && n in columns
  {
    if names != [] {
      PresentExactly(names[1..], columns);
      assert forall n :: n in names <==> n == names[0] || n in names[1..];
    }
  }

  /** The checksum covers those of sixteen columns that the frame has, and all columns, sorted, when it
      has none of them. */
  lemma SelectedExactly(columns: seq<string>)
    ensures var known := {"symbol", "ts", "event_time", "window_start", "window_end", "ratio_type", "market",
                          "mark_price", "open_interest", "funding_rate", "futures_spread", "spot_spread",
                          "futures_cvd_delta", "spot_cvd_delta", "liq_long_usd", "liq_short_usd"};
            if exists n :: n in columns && n in known
            then forall n :: n in SelectedColumns(columns) <==> n in columns && n in known
            else Sorted(SelectedColumns(columns)) && multiset(SelectedColumns(columns)) == multiset(columns)
  {
    PresentExactly(CHECKSUM_COLUMNS, columns);
    KnownColumns();
    SortSorted(columns);
    hide Present, Sort, Sorted;
    var chosen := Present(CHECKSUM_COLUMNS, columns);
    if chosen != [] {
      assert chosen[0] in chosen;
    }
  }

  lemma KnownColumns()
    ensures forall n :: n in CHECKSUM_COLUMNS <==>
              n in {"symbol", "ts", "event_time", "window_start", "window_end", "ratio_type", "market", "mark_price",
                    "open_interest", "funding_rate", "futures_spread", "spot_spread", "futures_cvd_delta",
                    "spot_cvd_delta", "liq_long_usd", "liq_short_usd"}
  {
  }

  /** The text of a cell in a normalised row. */
  function CellText(row: map<string, Option<string>>, column: string): string {
    match if column in row then row[column] else None
    case Some(text) => text
    case None => "<NA>"
  }

  /** Two rows are hashed alike exactly when all their selected cells have the same text, where NULL and
      a missing column read as "<NA>". */
  lemma {:induction false} RowsAlikeExactly(a: map<string, Option<string>>, b: map<string, Option<string>>,
                                            columns: seq<string>)
    ensures |Normalise(a, columns)| == |columns|
    ensures forall k | 0 <= k < |columns| :: Normalise(a, columns)[k] == CellText(a, columns[k])
    ensures Normalise(a, columns) == Normalise(b, columns)
            <==> forall k | 0 <= k < |columns| :: CellText(a, columns[k]) == CellText(b, columns[k])
    decreases |columns|
  {
    if columns != [] {
      RowsAlikeExactly(a, b, columns[1..]);
      RowsAlikeExactly(b, b, columns[1..]);
      hide CellText;
      assert forall k | 1 <= k < |columns| :: columns[k] == columns[1..][k - 1];
      assert Normalise(a, columns)[1..] == Normalise(a, columns[1..]);
      assert Normalise(b, columns)[1..] == Normalise(b, columns[1..]);
    }
  }

  /** `row_hashes.sum()` on uint64. */
  function WrappingSum(rows: seq<seq<string>>, hash: RowHash): Word {
    if rows == [] then 0 else (hash(rows[0]) + WrappingSum(rows[1..], hash)) % WORD
  }

  /** `compute_batch_checksum`; `order` is whatever order the row sort leaves. */
  function Checksum(frame: Frame, order: seq<seq<string>> -> seq<seq<string>>, hash: RowHash): Option<Word> {
    if frame.rows == [] || frame.columns == [] then None
    else
      var normalised := order(NormaliseAll(frame.rows, SelectedColumns(frame.columns)));
      Some(WrappingSum(normalised, hash) % WORD)
  }

  /** What a sort of the rows guarantees. */
  ghost predicate Permutes(order: seq<seq<string>> -> seq<seq<string>>) {
    forall rows :: multiset(order(rows)) == multiset(rows)
  }

  // ------------------------------------------------------------------ its algebra

  lemma {:induction false} ModShift(x: nat, k: nat)
    ensures (x + k * WORD) % WORD == x % WORD
  {
    if k > 0 {
      ModShift(x, k - 1);
      assert x + k * WORD == (x + (k - 1) * WORD) + WORD;
    }
  }

  lemma ModAdd(a: nat, b: nat)
    ensures (a + b % WORD) % WORD == (a + b) % WORD
  {
    assert b == b / WORD * WORD + b % WORD;
    assert a + b == (a + b % WORD) + b / WORD * WORD;
    ModShift(a + b % WORD, b / WORD);
  }

  /** Wrapping at every step is wrapping the mathematical sum once at the end. */
  lemma {:induction false} WrappingIsMath(rows: seq<seq<string>>, hash: RowHash)
    ensures WrappingSum(rows, hash) == SumBy(rows, hash) % WORD
  {
    if rows != [] {
      WrappingIsMath(rows[1..], hash);
      ModAdd(hash(rows[0]), SumBy(rows[1..], hash));
    }
  }

  lemma {:induction false} SumAppend<T>(a: seq<T>, b: seq<T>, f: T -> nat)
    ensures SumBy(a + b, f) == SumBy(a, f) + SumBy(b, f)
  {
    if a == [] {
      assert a + b == b;
    } else {
      SumAppend(a[1..], b, f);
      assert (a + b)[1..] == a[1..] + b;
    }
  }

  function Without<T>(xs: seq<T>, k: nat): seq<T>
    requires k < |xs|
  {
    xs[..k] + xs[k + 1..]
  }

  lemma WithoutLength<T>(xs: seq<T>, k: nat)
    requires k < |xs|
    ensures |Without(xs, k)| == |xs| - 1
  {
  }

  /** Taking one element out of a sum. */
  lemma {:induction false} SumWithout<T>(xs: seq<T>, k: nat, f: T -> nat)
    requires k < |xs|
    ensures SumBy(xs, f) == f(xs[k]) + SumBy(Without(xs, k), f)
  {
    var tail := [xs[k]] + xs[k + 1..];
    assert tail[1..] == xs[k + 1..];
    assert SumBy(tail, f) == f(xs[k]) + SumBy(xs[k + 1..], f);
    hide SumBy;
    assert xs == xs[..k] + tail;
    SumAppend(xs[..k], tail, f);
    SumAppend(xs[..k], xs[k + 1..], f);
  }

  lemma MultisetWithout<T>(xs: seq<T>, k: nat)
    requires k < |xs|
    ensures multiset(Without(xs, k)) == multiset(xs) - multiset{xs[k]}
  {
    assert xs == xs[..k] + ([xs[k]] + xs[k + 1..]);
    assert multiset(xs) == multiset(xs[..k]) + (multiset{xs[k]} + multiset(xs[k + 1..]));
  }

  lemma {:induction false} SumPermuted<T>(a: seq<T>, b: seq<T>, f: T -> nat)
    requires multiset(a) == multiset(b)
    ensures SumBy(a, f) == SumBy(b, f)
    decreases |a|
  {
    SameLength(a, b);
    if a != [] {
      WithoutLength(a, 0);
      hide SumBy, Without;
      var k := PositionOf(a[0], a, b);
      SumWithout(a, 0, f);
      MultisetWithout(a, 0);
      SumWithout(b, k, f);
      MultisetWithout(b, k);
      SumPermuted(Without(a, 0), Without(b, k), f);
    }
  }

  lemma PositionOf<T>(x: T, a: seq<T>, b: seq<T>) returns (k: nat)
    requires x in a && multiset(a) == multiset(b)
    ensures k < |b| && b[k] == x
  {
    assert x in multiset(b);
    k :| k < |b| && b[k] == x;
  }

  lemma {:induction false} SumNormalised(rows: seq<map<string, Option<string>>>, columns: seq<string>,
                                         hash: RowHash, f: map<string, Option<string>> -> nat)
    requires forall row :: f(row) == hash(Normalise(row, columns))
    ensures SumBy(NormaliseAll(rows, columns), hash) == SumBy(rows, f)
  {
    hide Normalise;
    if rows != [] {
      SumNormalised(rows[1..], columns, hash, f);
      assert NormaliseAll(rows, columns)[1..] == NormaliseAll(rows[1..], columns);
    }
  }

  lemma {:induction false} PresentPermuted(names: seq<string>, a: seq<string>, b: seq<string>)
    requires multiset(a) == multiset(b)
    ensures Present(names, a) == Present(names, b)
  {
    if names != [] {
      assert names[0] in a <==> names[0] in multiset(a);
      assert names[0] in b <==> names[0] in multiset(b);
      PresentPermuted(names[1..], a, b);
    }
  }

  lemma SelectedPermuted(a: seq<string>, b: seq<string>)
    requires multiset(a) == multiset(b)
    ensures SelectedColumns(a) == SelectedColumns(b)
  {
    hide Present, Sort, Sorted;
    PresentPermuted(CHECKSUM_COLUMNS, a, b);
    SortSorted(a);
    SortSorted(b);
    SortedUnique(Sort(a), Sort(b));
  }

  /** The checksum of a non-empty batch is the sum of its row hashes, wrapped once. */
  lemma ChecksumIsSum(frame: Frame, order: seq<seq<string>> -> seq<seq<string>>, hash: RowHash,
                      f: map<string, Option<string>> -> nat)
    requires frame.rows != [] && frame.columns != [] && Permutes(order)
    requires forall row :: f(row) == hash(Normalise(row, SelectedColumns(frame.columns)))
    ensures Checksum(frame, order, hash) == Some(SumBy(frame.rows, f) % WORD)
  {
    hide Normalise, SelectedColumns, WrappingSum, SumBy;
    var columns := SelectedColumns(frame.columns);
    var normalised := NormaliseAll(frame.rows, columns);
    WrappingIsMath(order(normalised), hash);
    SumPermuted(order(normalised), normalised, hash);
    SumNormalised(frame.rows, columns, hash, f);
  }

  /** Neither the order of the rows, nor that of the columns, nor the way the rows are sorted matters. */
  lemma ChecksumOrderInsensitive(a: Frame, b: Frame, order: seq<seq<string>> -> seq<seq<string>>,
                                 order': seq<seq<string>> -> seq<seq<string>>, hash: RowHash)
    requires multiset(a.columns) == multiset(b.columns) && multiset(a.rows) == multiset(b.rows)
    requires Permutes(order) && Permutes(order')
    ensures Checksum(a, order, hash) == Checksum(b, order', hash)
  {
    hide Normalise, SelectedColumns, WrappingSum, SumBy, Permutes;
    SameLength(a.rows, b.rows);
    SameLength(a.columns, b.columns);
    SelectedPermuted(a.columns, b.columns);
    var columns := SelectedColumns(a.columns);
    if a.rows != [] && a.columns != [] {
      var f := row => hash(Normalise(row, columns));
      ChecksumIsSum(a, order, hash, f);
      ChecksumIsSum(b, order', hash, f);
      SumPermuted(a.rows, b.rows, f);
    }
  }

  /** Two non-empty batches with the same columns: the checksum of both together is the sum of the
      checksums, modulo 2^64. */
  lemma ChecksumAdditive(a: Frame, b: Frame, order: seq<seq<string>> -> seq<seq<string>>, hash: RowHash)
    requires a.columns == b.columns && a.columns != [] && a.rows != [] && b.rows != [] && Permutes(order)
    ensures Checksum(a, order, hash).Some? && Checksum(b, order, hash).Some?
    ensures Checksum(Frame(a.columns, a.rows + b.rows), order, hash)
            == Some((Checksum(a, order, hash).value + Checksum(b, order, hash).value) % WORD)
  {
    hide Normalise, SelectedColumns, WrappingSum, SumBy, Permutes, Checksum;
    var columns := SelectedColumns(a.columns);
    var f := row => hash(Normalise(row, columns));
    ChecksumIsSum(a, order, hash, f);
    ChecksumIsSum(b, order, hash, f);
    ChecksumIsSum(Frame(a.columns, a.rows + b.rows), order, hash, f);
    SumAppend(a.rows, b.rows, f);
    ModAdd(SumBy(a.rows, f), SumBy(b.rows, f));
    ModAdd(SumBy(b.rows, f) % WORD, SumBy(a.rows, f));
  }
}
