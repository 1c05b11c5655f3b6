/**
  The partition allocator of the collectors: each routing symbol owns a span of the partitions of a
  hot topic, and a message is routed to one lane of its symbol's span.
*/
module PartitionRouting {
  import opened PyText
  import opened PyDigits

  /** `str.upper`, of which only this matters: what is in upper case stays as it is. */
  type UpperCase = f: string -> string | forall s :: f(f(s)) == f(s) witness (s: string) => s

  datatype Config = Config(
    defaultPartitions: int, hotPartitions: int, symbols: seq<string>, overrides: map<(string, string), int>,
    upper: UpperCase)
  {
    /** The configured symbols in upper case. */
    function Known(): (r: seq<string>)
      ensures |r| == |symbols|
      ensures forall k | 0 <= k < |symbols| :: r[k] == upper(symbols[k])
    {
      seq(|symbols|, k requires 0 <= k < |symbols| => upper(symbols[k]))
    }
  }

  const HIGH_FREQUENCY_TOPICS := {
    "binance-bookticker", "spot-bookticker", "binance-trade", "spot-trade", "binance-depth", "spot-depth"}

  // ------------------------------------------------------------------ symbols

  ghost predicate Distinct<T(!new)>(s: seq<T>) {
    forall i, j | 0 <= i < j < |s| :: s[i] != s[j]
  }

  datatype NormalizeError = NotAList | EmptySymbol | DuplicateSymbol | NoSymbols

  /** What the configuration holds: a list of any values, or something else. */
  datatype RawSymbols<V> = List(items: seq<V>) | Other

  /** `str` of every item. */
  function Shown<V>(items: seq<V>, str: V -> string): (r: seq<string>)
    ensures |r| == |items| && forall k | 0 <= k < |items| :: r[k] == str(items[k])
  {
    seq(|items|, k requires 0 <= k < |items| => str(items[k]))
  }

  datatype Normalized = Symbols(symbols: seq<string>) | Rejected(error: NormalizeError)

  /** The entries, trimmed and upper-cased. */
  function TrimmedUpper(raw: seq<string>, upper: UpperCase): (r: seq<string>)
    ensures |r| == |raw|
    ensures forall k | 0 <= k < |raw| :: r[k] == upper(Strip(raw[k]))
  {
    seq(|raw|, k requires 0 <= k < |raw| => upper(Strip(raw[k])))
  }

  /** Entry i is the first that is empty or repeats an earlier one, and the error says which. */
  ghost predicate FirstOffence(norm: seq<string>, i: nat, error: NormalizeError) {
    && i < |norm| && [] !in norm[..i] && Distinct(norm[..i])
    && match error
       case EmptySymbol => norm[i] == []
       case DuplicateSymbol => norm[i] in norm[..i]
       case NoSymbols => false
       case NotAList => false
  }

  ghost predicate NormalizedAs(norm: seq<string>, r: Normalized) {
    && (r.Symbols? <==> norm != [] && [] !in norm && Distinct(norm))
    && (r.Symbols? ==> r.symbols == norm)
    && (r == Rejected(NoSymbols) <==> norm == [])
    && (r.Rejected? && norm != [] ==> exists i: nat :: FirstOffence(norm, i, r.error))
  }

  lemma OffenceRejects(norm: seq<string>, i: nat, error: NormalizeError)
    requires FirstOffence(norm, i, error)
    ensures NormalizedAs(norm, Rejected(error))
  {
    if error.DuplicateSymbol? {
      var k :| 0 <= k < i && norm[..i][k] == norm[i];
      assert norm[k] == norm[i];
    } else {
      assert norm[i] in norm;
    }
  }

  lemma CleanAccepted(norm: seq<string>)
    requires [] !in norm && Distinct(norm)
    ensures NormalizedAs(norm, if norm == [] then Rejected(NoSymbols) else Symbols(norm))
  {
  }

  /** `_normalize_symbols`, for any `str`: a list is accepted exactly when it is not empty and its
      trimmed, upper-cased entries are non-empty and distinct; otherwise the error is that of the first
      offence. */
  method NormalizeSymbols<V>(raw: RawSymbols<V>, str: V -> string, upper: UpperCase) returns (r: Normalized)
    ensures r == Rejected(NotAList) <==> raw.Other?
    ensures raw.List? ==> NormalizedAs(TrimmedUpper(Shown(raw.items, str), upper), r)
  {
    hide TrimmedUpper, Shown, NormalizedAs;
    match raw {
      case Other => return Rejected(NotAList);
      case List(items) => r := NormalizeTexts(Shown(items, str), upper);
    }
  }

  /** The loop over the entries. */
  method NormalizeTexts(raw: seq<string>, upper: UpperCase) returns (r: Normalized)
    ensures NormalizedAs(TrimmedUpper(raw, upper), r) && r != Rejected(NotAList)
  {
    hide TrimmedUpper, Strip, NormalizedAs;
    ghost var norm := TrimmedUpper(raw, upper);
    var symbols, seen: set<string> := [], {};
    for i := 0 to |raw|
      invariant symbols == norm[..i]
      invariant forall s :: s in seen <==> s in symbols
      invariant [] !in symbols && Distinct(symbols)
    {
      var symbol := upper(Strip(raw[i]));
      assert norm[i] == symbol;
      if symbol == [] {
        OffenceRejects(norm, i, EmptySymbol);
        return Rejected(EmptySymbol);
      }
      if symbol in seen {
        OffenceRejects(norm, i, DuplicateSymbol);
        return Rejected(DuplicateSymbol);
      }
      seen, symbols := seen + {symbol}, symbols + [symbol];
    }
    assert norm[..|raw|] == norm;
    CleanAccepted(norm);
    if symbols == [] {
      return Rejected(NoSymbols);
    }
    return Symbols(symbols);
  }

  /** The symbols of a configuration that went through it satisfy the premise of the results about spans. */
  lemma NormalizedAreDistinct(raw: seq<string>, cfg: Config)
    requires NormalizedAs(TrimmedUpper(raw, cfg.upper), Symbols(cfg.symbols))
    ensures cfg.Known() == cfg.symbols && Distinct(cfg.Known()) && cfg.symbols != []
  {
    forall k | 0 <= k < |cfg.symbols| ensures cfg.Known()[k] == cfg.symbols[k] {
      var s := Strip(raw[k]);
      assert cfg.symbols[k] == cfg.upper(s) && cfg.upper(cfg.upper(s)) == cfg.upper(s);
    }
  }

  /** `list.index`, or the length when x is missing. */
  function IndexOf<T(==)>(s: seq<T>, x: T): (i: nat)
    ensures i <= |s| && x !in s[..i]
    ensures i < |s| <==> x in s
    ensures i < |s| ==> s[i] == x
  {
    if s == [] || s[0] == x then 0
    else
      var i := IndexOf(s[1..], x);
      assert s == [s[0]] + s[1..] && s[..i + 1] == [s[0]] + s[1..][..i];
      i + 1
  }

  // ------------------------------------------------------------------ spans

  function Min(a: int, b: int): int {
    if a < b then a else b
  }

  /** The first partition of the i-th of n symbols over p partitions, when p is at least n. */
  function Start(p: nat, n: nat, i: nat): nat
    requires n > 0
  {
    p / n * i + Min(i, p % n)
  }

  function Size(p: nat, n: nat, i: nat): nat
    requires n > 0
  {
    p / n + if i < p % n then 1 else 0
  }

  function PartitionCount(cfg: Config, topic: string): (p: nat)
    ensures p >= 1
  {
    var raw := if topic in HIGH_FREQUENCY_TOPICS then cfg.hotPartitions else cfg.defaultPartitions;
    if raw > 1 then raw else 1
  }

  predicate Hot(cfg: Config, topic: string) {
    topic in HIGH_FREQUENCY_TOPICS && PartitionCount(cfg, topic) > 1
  }

  /** The six topics of high frequency have the hot partitions, all others the default, but at least one. */
  lemma PartitionCounts(cfg: Config, topic: string)
    ensures var hot := topic in {"binance-bookticker", "spot-bookticker", "binance-trade", "spot-trade",
                                 "binance-depth", "spot-depth"};
            var p, asked := PartitionCount(cfg, topic), if hot then cfg.hotPartitions else cfg.defaultPartitions;
            && (asked >= 1 ==> p == asked) && (asked < 1 ==> p == 1)
            && (Hot(cfg, topic) <==> hot && cfg.hotPartitions >= 2)
  {
  }

  /** The routing universe; a symbol that is not configured is appended. */
  function Universe(cfg: Config, symbol: string): (r: seq<string>)
    ensures cfg.upper(symbol) in r
  {
    var known := cfg.Known();
    if cfg.upper(symbol) in known then known else known + [cfg.upper(symbol)]
  }

  /** `get_symbol_partition_span`: from the first partition to one past the last. */
  function Span(cfg: Config, topic: string, symbol: string): (nat, nat) {
    var p := PartitionCount(cfg, topic);
    if !Hot(cfg, topic) then (0, p)
    else
      var symbols := Universe(cfg, symbol);
      var i, n := IndexOf(symbols, cfg.upper(symbol)), |symbols|;
      if p < n then (i % p, i % p + 1) else (Start(p, n, i), Start(p, n, i) + Size(p, n, i))
  }

  lemma NextStart(p: nat, n: nat, i: nat)
    requires n > 0
    ensures Start(p, n, i) + Size(p, n, i) == Start(p, n, i + 1)
  {
    assert p / n * (i + 1) == p / n * i + p / n;
  }

  lemma LastStart(p: nat, n: nat)
    requires n > 0
    ensures Start(p, n, n) == p
  {
    assert p == p / n * n + p % n;
  }

  lemma {:induction false} StartMonotone(p: nat, n: nat, i: nat, j: nat)
    requires 0 < n && i <= j
    ensures Start(p, n, i) <= Start(p, n, j)
    decreases j - i
  {
    if i < j {
      NextStart(p, n, i);
      StartMonotone(p, n, i + 1, j);
    }
  }

  /** The symbol that owns partition q. */
  lemma {:induction false} FindOwner(p: nat, n: nat, q: nat, m: nat) returns (i: nat)
    requires 0 < m <= n && q < Start(p, n, m)
    ensures i < m && Start(p, n, i) <= q < Start(p, n, i) + Size(p, n, i)
  {
    NextStart(p, n, m - 1);
    if Start(p, n, m - 1) <= q {
      i := m - 1;
    } else {
      assert Start(p, n, 0) == 0;
      i := FindOwner(p, n, q, m - 1);
    }
  }

  lemma SpanOfConfigured(cfg: Config, topic: string, i: nat)
    requires Hot(cfg, topic) && Distinct(cfg.Known()) && i < |cfg.symbols|
    ensures Span(cfg, topic, cfg.symbols[i]) ==
            var p, n := PartitionCount(cfg, topic), |cfg.symbols|;
            if p < n then (i % p, i % p + 1) else (Start(p, n, i), Start(p, n, i) + Size(p, n, i))
  {
    var known := cfg.Known();
    assert known[i] == cfg.upper(cfg.symbols[i]);
    assert known[i] in known;
    assert IndexOf(known, known[i]) == i;
  }

  /** With at least as many partitions as symbols, the spans tile the partitions: they follow one
      another from 0 to p, none is empty, and their sizes differ by at most one. */
  lemma SpansTile(cfg: Config, topic: string, i: nat)
    requires Hot(cfg, topic) && Distinct(cfg.Known()) && i < |cfg.symbols|
    requires PartitionCount(cfg, topic) >= |cfg.symbols|
    ensures var (s, e) := Span(cfg, topic, cfg.symbols[i]);
            var p, n := PartitionCount(cfg, topic), |cfg.symbols|;
            && s < e
            && (e - s == p / n || e - s == p / n + 1)
            && (i == 0 ==> s == 0)
            && (i == n - 1 ==> e == p)
            && (i < n - 1 ==> e == Span(cfg, topic, cfg.symbols[i + 1]).0)
  {
    var p, n := PartitionCount(cfg, topic), |cfg.symbols|;
    SpanOfConfigured(cfg, topic, i);
    NextStart(p, n, i);
    LastStart(p, n);
    SizeBounds(p, n, i);
    if i < n - 1 {
      SpanOfConfigured(cfg, topic, i + 1);
    }
    hide Span, Hot, Distinct, Size;
    FirstStart(p, n);
  }

  lemma FirstStart(p: nat, n: nat)
    requires n > 0
    ensures Start(p, n, 0) == 0
  {
  }

  lemma SizeBounds(p: nat, n: nat, i: nat)
    requires 0 < n <= p
    ensures 1 <= p / n
    ensures Size(p, n, i) == p / n || Size(p, n, i) == p / n + 1
  {
    var d, r := p / n, p % n;
    assert p == d * n + r;
    assert d == 0 ==> p == r;
  }

  /** Every partition belongs to exactly one configured symbol. */
  lemma EveryPartitionOwned(cfg: Config, topic: string, q: nat) returns (i: nat)
    requires Hot(cfg, topic) && Distinct(cfg.Known()) && cfg.symbols != []
    requires PartitionCount(cfg, topic) >= |cfg.symbols| && q < PartitionCount(cfg, topic)
    ensures i < |cfg.symbols|
    ensures forall j | 0 <= j < |cfg.symbols| ::
              var (s, e) := Span(cfg, topic, cfg.symbols[j]); s <= q < e <==> j == i
  {
    hide Start, Size, Span, Distinct, Config.Known;
    var p, n := PartitionCount(cfg, topic), |cfg.symbols|;
    LastStart(p, n);
    i := FindOwner(p, n, q, n);
    forall j | 0 <= j < n
      ensures var (s, e) := Span(cfg, topic, cfg.symbols[j]); s <= q < e <==> j == i
    {
      SpanOfConfigured(cfg, topic, j);
      NextStart(p, n, j);
      NextStart(p, n, i);
      if j < i {
        StartMonotone(p, n, j + 1, i);
      } else if i < j {
        StartMonotone(p, n, i + 1, j);
      }
    }
  }

  /** How many of the first m symbols the modulo fallback sends to partition q. */
  function Served(p: nat, m: nat, q: nat): nat
    requires p > 0
  {
    if m == 0 then 0 else Served(p, m - 1, q) + if (m - 1) % p == q then 1 else 0
  }

  lemma {:induction false} ServedCount(p: nat, m: nat, q: nat)
    requires q < p
    ensures Served(p, m, q) == m / p + if q < m % p then 1 else 0
  {
    if m > 0 {
      ServedCount(p, m - 1, q);
      DivSucc(p, m - 1);
    }
  }

  lemma DivSucc(p: nat, m: nat)
    requires p > 0
    ensures if m % p == p - 1 then (m + 1) / p == m / p + 1 && (m + 1) % p == 0
            else (m + 1) / p == m / p && (m + 1) % p == m % p + 1
  {
    var d, r := m / p, m % p;
    assert m == d * p + r;
    if r == p - 1 {
      assert m + 1 == (d + 1) * p + 0;
      DivUnique(m + 1, p, d + 1, 0);
    } else {
      assert m + 1 == d * p + (r + 1);
      DivUnique(m + 1, p, d, r + 1);
    }
  }

  lemma MulSign(k: int, p: nat)
    ensures k >= 1 ==> k * p >= p
    ensures k <= -1 ==> k * p <= 0 - p
  {
    assert (k - 1) * p == k * p - p;
    assert (k + 1) * p == k * p + p;
    if k >= 1 {
      assert (k - 1) * p >= 0;
    } else if k <= -1 {
      assert (k + 1) * p <= 0;
    }
  }

  lemma DivUnique(x: nat, p: nat, d: nat, r: nat)
    requires r < p && x == d * p + r
    ensures x / p == d && x % p == r
  {
    var k := x / p - d;
    assert x == x / p * p + x % p;
    assert k * p == x / p * p - d * p;
    MulSign(k, p);
  }

  /** With fewer partitions than symbols each symbol has one partition, and every partition serves
      the floor or the ceiling of n/p symbols. */
  lemma {:induction false} FallbackBalanced(cfg: Config, topic: string, q: nat)
    requires Hot(cfg, topic) && Distinct(cfg.Known())
    requires PartitionCount(cfg, topic) < |cfg.symbols| && q < PartitionCount(cfg, topic)
    ensures forall i | 0 <= i < |cfg.symbols| ::
              var (s, e) := Span(cfg, topic, cfg.symbols[i]);
              e == s + 1 && (s == q <==> i % PartitionCount(cfg, topic) == q)
    ensures var p, n := PartitionCount(cfg, topic), |cfg.symbols|;
            n / p <= Served(p, n, q) <= n / p + (if n % p == 0 then 0 else 1)
  {
    var p, n := PartitionCount(cfg, topic), |cfg.symbols|;
    ServedCount(p, n, q);
    forall i | 0 <= i < n
      ensures var (s, e) := Span(cfg, topic, cfg.symbols[i]); e == s + 1 && (s == q <==> i % p == q)
    {
      SpanOfConfigured(cfg, topic, i);
    }
  }

  // ------------------------------------------------------------------ lanes and routes

  /** `get_active_lane_count`: topic and symbol, then topic, then symbol, then everything. */
  function ActiveLanes(cfg: Config, topic: string, symbol: string, shardCount: nat): (lanes: nat)
    ensures 1 <= lanes && (shardCount >= 1 ==> lanes <= shardCount)
  {
    if shardCount <= 1 then 1
    else
      var up, o := cfg.upper(symbol), cfg.overrides;
      if (topic, up) in o then Clamp(o[(topic, up)], shardCount)
      else if (topic, "*") in o then Clamp(o[(topic, "*")], shardCount)
      else if ("*", up) in o then Clamp(o[("*", up)], shardCount)
      else if ("*", "*") in o then Clamp(o[("*", "*")], shardCount)
      else shardCount
  }

  function Clamp(lanes: int, shardCount: nat): (r: nat)
    requires shardCount >= 1
    ensures 1 <= r <= shardCount
  {
    var m := Min(lanes, shardCount);
    if m > 1 then m else 1
  }

  datatype Route = Route(
    key: string, partition: Option<nat>, shard: nat, shardCount: nat, activeShardCount: nat, partitionCount: nat)

  function LaneKey(symbol: string, shard: nat): string {
    symbol + "-lane-" + Digits(shard)
  }

  /** `build_partition_route`, for the routing seed built from the payload and any hash. */
  function BuildRoute(cfg: Config, topic: string, symbol: string, seed: string, hash: string -> nat): Route {
    var up, p := cfg.upper(symbol), PartitionCount(cfg, topic);
    if !Hot(cfg, topic) then Route(up, None, 0, 1, 1, p)
    else
      var (start, end) := Span(cfg, topic, up);
      var shardCount := if end - start > 1 then end - start else 1;
      var active := ActiveLanes(cfg, topic, up, shardCount);
      var shard := hash(seed) % active;
      Route(LaneKey(up, shard), Some(start + shard), shard, shardCount, active, p)
  }

  lemma SpanUpper(cfg: Config, topic: string, symbol: string)
    ensures Span(cfg, topic, cfg.upper(symbol)) == Span(cfg, topic, symbol)
  {
    assert Universe(cfg, cfg.upper(symbol)) == Universe(cfg, symbol);
    hide Universe, Start, Size, IndexOf;
  }

  lemma SpanInside(p: nat, n: nat, i: nat)
    requires 0 < n <= p && i < n
    ensures 0 < Size(p, n, i) && Start(p, n, i) + Size(p, n, i) <= p
  {
    SizeBounds(p, n, i);
    NextStart(p, n, i);
    StartMonotone(p, n, i + 1, n);
    LastStart(p, n);
  }

  lemma SpanNotEmpty(cfg: Config, topic: string, symbol: string)
    ensures Span(cfg, topic, symbol).0 < Span(cfg, topic, symbol).1 <= PartitionCount(cfg, topic)
  {
    hide Start, Size, Universe, IndexOf;
    var p := PartitionCount(cfg, topic);
    if Hot(cfg, topic) {
      var symbols := Universe(cfg, symbol);
      var i, n := IndexOf(symbols, cfg.upper(symbol)), |symbols|;
      if p >= n {
        SpanInside(p, n, i);
      }
    }
  }

  /** On a hot topic the chosen partition lies in the symbol's span, for every seed, hash and override. */
  lemma RouteInSpan(cfg: Config, topic: string, symbol: string, seed: string, hash: string -> nat)
    requires Hot(cfg, topic)
    ensures var r, (s, e) := BuildRoute(cfg, topic, symbol, seed, hash), Span(cfg, topic, symbol);
            && r.partition.Some? && s <= r.partition.value < e <= r.partitionCount
            && r.shard < r.activeShardCount <= r.shardCount == e - s
  {
    SpanUpper(cfg, topic, symbol);
    SpanNotEmpty(cfg, topic, symbol);
  }

  /** Two configured symbols never share a partition of a hot topic that has enough partitions. */
  lemma SymbolsNeverShare(cfg: Config, topic: string, i: nat, j: nat, seed: string, seed': string, hash: string -> nat)
    requires Hot(cfg, topic) && Distinct(cfg.Known()) && PartitionCount(cfg, topic) >= |cfg.symbols|
    requires i < |cfg.symbols| && j < |cfg.symbols| && i != j
    ensures BuildRoute(cfg, topic, cfg.symbols[i], seed, hash).partition
            != BuildRoute(cfg, topic, cfg.symbols[j], seed', hash).partition
  {
    RouteInSpan(cfg, topic, cfg.symbols[i], seed, hash);
    RouteInSpan(cfg, topic, cfg.symbols[j], seed', hash);
    var q := BuildRoute(cfg, topic, cfg.symbols[i], seed, hash).partition.value;
    var owner := EveryPartitionOwned(cfg, topic, q);
  }

  /** A lane key can be split into its symbol and its shard in only one way. */
  lemma LaneKeyInjective(a: string, m: nat, b: string, n: nat)
    requires LaneKey(a, m) == LaneKey(b, n)
    ensures a == b && m == n
  {
    LaneKeyDigits(a, m, b, n);
    LaneKeyDigits(b, n, a, m);
    var x, y, k := Digits(m), Digits(n), LaneKey(a, m);
    assert k[|k| - |x|..] == x && k[|k| - |y|..] == y;
    assert k[..|k| - |x| - 6] == a && k[..|k| - |y| - 6] == b;
    DigitsInjective(m, n);
  }

  lemma {:induction false} LaneKeyDigits(a: string, m: nat, b: string, n: nat)
    requires LaneKey(a, m) == LaneKey(b, n)
    ensures |Digits(m)| >= |Digits(n)|
  {
    var x, y, k := Digits(m), Digits(n), LaneKey(a, m);
    assert k[|k| - |x| - 1] == '-';
    forall j | |k| - |y| <= j < |k| ensures IsDigit(k[j]) {
      assert k[j] == y[j - (|k| - |y|)];
      assert y[j - (|k| - |y|)] in y;
    }
  }

  lemma SpanIgnoresOverrides(cfg: Config, overrides: map<(string, string), int>, topic: string, symbol: string)
    ensures Span(cfg, topic, symbol) == Span(cfg.(overrides := overrides), topic, symbol)
  {
    assert Universe(cfg, symbol) == Universe(cfg.(overrides := overrides), symbol);
  }

  lemma RouteParts(cfg: Config, topic: string, symbol: string, seed: string, hash: string -> nat)
    requires Hot(cfg, topic)
    ensures var r := BuildRoute(cfg, topic, symbol, seed, hash);
            && r.key == LaneKey(cfg.upper(symbol), r.shard)
            && r.partition == Some(Span(cfg, topic, cfg.upper(symbol)).0 + r.shard)
  {
    hide Span, LaneKey, ActiveLanes;
  }

  lemma ColdRoute(cfg: Config, topic: string, symbol: string, seed: string, hash: string -> nat)
    requires !Hot(cfg, topic)
    ensures BuildRoute(cfg, topic, symbol, seed, hash).partition.None?
  {
    hide Span, LaneKey, ActiveLanes;
  }

  /** On a hot topic the shard is the hash modulo the active lanes, so that every active lane is reached
      by some hash, and the partition is that many behind the start of the span; elsewhere the symbol is
      the key and Kafka chooses. */
  lemma RouteExactly(cfg: Config, topic: string, symbol: string, seed: string, hash: string -> nat)
    ensures var r, up := BuildRoute(cfg, topic, symbol, seed, hash), cfg.upper(symbol);
            if topic in HIGH_FREQUENCY_TOPICS && PartitionCount(cfg, topic) > 1
            then && r.shard == hash(seed) % r.activeShardCount && r.key == up + "-lane-" + Digits(r.shard)
                 && r.partition == Some(Span(cfg, topic, up).0 + r.shard)
                 && r.activeShardCount == ActiveLanes(cfg, topic, up, r.shardCount)
            else r.key == up && r.partition.None? && r.shard == 0 && r.shardCount == r.activeShardCount == 1
    ensures BuildRoute(cfg, topic, symbol, seed, hash).partitionCount == PartitionCount(cfg, topic)
  {
    hide Span, ActiveLanes, HIGH_FREQUENCY_TOPICS;
  }

  lemma EveryLaneReached(cfg: Config, topic: string, symbol: string, seed: string, hash: string -> nat, lane: nat)
    requires lane < BuildRoute(cfg, topic, symbol, seed, hash).activeShardCount
    ensures BuildRoute(cfg, topic, symbol, seed, (_: string) => lane).shard == lane
  {
    hide Span, LaneKey, ActiveLanes, HIGH_FREQUENCY_TOPICS;
  }

  /** n is the asked number of lanes, or the nearest one that the span allows. */
  predicate LanesAsked(n: nat, asked: int, shardCount: nat) {
    && (asked < 1 ==> n == 1) && (1 <= asked <= shardCount ==> n == asked) && (asked > shardCount ==> n == shardCount)
  }

  /** The override for the topic and the symbol counts first, then that for the topic, for the symbol, and
      for everything; without one all lanes are active. */
  lemma LanesFollowOverrides(cfg: Config, topic: string, symbol: string, shardCount: nat)
    requires shardCount >= 1
    ensures var n, up := ActiveLanes(cfg, topic, symbol, shardCount), cfg.upper(symbol);
            if (topic, up) in cfg.overrides then LanesAsked(n, cfg.overrides[(topic, up)], shardCount)
            else if (topic, "*") in cfg.overrides then LanesAsked(n, cfg.overrides[(topic, "*")], shardCount)
            else if ("*", up) in cfg.overrides then LanesAsked(n, cfg.overrides[("*", up)], shardCount)
            else if ("*", "*") in cfg.overrides then LanesAsked(n, cfg.overrides[("*", "*")], shardCount)
            else n == shardCount
  {
  }

  /** For a fixed topic the message key alone determines the partition, whatever the payloads and
      the lane overrides in force when the two messages were routed. */
  lemma KeyDeterminesPartition(cfg: Config, overrides: map<(string, string), int>, topic: string,
                               symbol: string, seed: string, symbol': string, seed': string, hash: string -> nat)
    requires BuildRoute(cfg, topic, symbol, seed, hash).key
             == BuildRoute(cfg.(overrides := overrides), topic, symbol', seed', hash).key
    ensures BuildRoute(cfg, topic, symbol, seed, hash).partition
            == BuildRoute(cfg.(overrides := overrides), topic, symbol', seed', hash).partition
  {
    hide Span, LaneKey, BuildRoute, HIGH_FREQUENCY_TOPICS;
    var other := cfg.(overrides := overrides);
    assert Hot(cfg, topic) == Hot(other, topic);
    if Hot(cfg, topic) {
      RouteParts(cfg, topic, symbol, seed, hash);
      RouteParts(other, topic, symbol', seed', hash);
      SpanIgnoresOverrides(cfg, overrides, topic, cfg.upper(symbol));
      LaneKeyInjective(cfg.upper(symbol), BuildRoute(cfg, topic, symbol, seed, hash).shard,
                       cfg.upper(symbol'), BuildRoute(other, topic, symbol', seed', hash).shard);
    } else {
      ColdRoute(cfg, topic, symbol, seed, hash);
      ColdRoute(other, topic, symbol', seed', hash);
    }
  }

  // ------------------------------------------------------------------ the routing seed

  /** A payload value as Python prints it, and whether it is true. */
  datatype PyValue = PyValue(text: string, truthy: bool)

  type Payload = map<string, PyValue>

  function Get(payload: Payload, key: string): PyValue {
    if key in payload then payload[key] else PyValue("None", false)
  }

  predicate EndsWith(s: string, suffix: string) {
    |s| >= |suffix| && s[|s| - |suffix|..] == suffix
  }

  function IntText(n: int): string {
    if n >= 0 then Digits(n) else "-" + Digits(-n)
  }

  /** `payload.get(k0) or payload.get(k1) or ... or otherwise`. */
  function FirstTruthy(payload: Payload, keys: seq<string>, otherwise: string): string {
    if keys == [] then otherwise
    else if Get(payload, keys[0]).truthy then Get(payload, keys[0]).text
    else FirstTruthy(payload, keys[1..], otherwise)
  }

  /** The payload fields that identify an event of the topic, the best one first. */
  function SeedKeys(topic: string): seq<string> {
    if EndsWith(topic, "trade") then ["a", "T", "E"]
    else if EndsWith(topic, "depth") then ["u", "lastUpdateId", "E"]
    else if EndsWith(topic, "bookticker") then ["u", "E"]
    else []
  }

  /** What stands in for an event without such a field. */
  function SeedDefault(topic: string, ts: int, payload: Payload): string {
    if !EndsWith(topic, "trade") && (EndsWith(topic, "depth") || EndsWith(topic, "bookticker"))
    then Get(payload, "b").text + "-" + Get(payload, "a").text + "-" + IntText(ts)
    else IntText(ts)
  }

  /** `_build_routing_seed`. */
  function RoutingSeed(upper: UpperCase, topic: string, symbol: string, ts: int, payload: Payload): string {
    topic + "|" + upper(symbol) + "|" + FirstTruthy(payload, SeedKeys(topic), SeedDefault(topic, ts, payload))
  }

  /** Both payloads hold the same value in the best field that is filled in either. */
  predicate SameEvent(a: Payload, b: Payload, keys: seq<string>) {
    exists k :: 0 <= k < |keys| && IdentifiedBy(a, b, keys, k)
  }

  predicate IdentifiedBy(a: Payload, b: Payload, keys: seq<string>, k: nat)
    requires k < |keys|
  {
    && Get(a, keys[k]).truthy && Get(b, keys[k]).truthy && Get(a, keys[k]).text == Get(b, keys[k]).text
    && forall j | 0 <= j < k :: !Get(a, keys[j]).truthy && !Get(b, keys[j]).truthy
  }

  lemma {:induction false} SameFirstTruthy(a: Payload, b: Payload, keys: seq<string>, k: nat, x: string, y: string)
    requires k < |keys| && IdentifiedBy(a, b, keys, k)
    ensures FirstTruthy(a, keys, x) == FirstTruthy(b, keys, y)
    decreases k
  {
    if k > 0 {
      assert forall j | 0 <= j < |keys[1..]| :: keys[1..][j] == keys[j + 1];
      assert IdentifiedBy(a, b, keys[1..], k - 1);
      SameFirstTruthy(a, b, keys[1..], k - 1, x, y);
    }
  }

  /** An event that is sent again, at another time or with other prices, takes the same route, however
      its symbol is capitalised. */
  lemma SameEventSameRoute(cfg: Config, topic: string, symbol: string, symbol': string, ts: int, ts': int,
                           a: Payload, b: Payload, hash: string -> nat)
    requires SameEvent(a, b, SeedKeys(topic)) && cfg.upper(symbol) == cfg.upper(symbol')
    ensures BuildRoute(cfg, topic, symbol, RoutingSeed(cfg.upper, topic, cfg.upper(symbol), ts, a), hash)
            == BuildRoute(cfg, topic, symbol', RoutingSeed(cfg.upper, topic, cfg.upper(symbol'), ts', b), hash)
  {
    hide BuildRoute, SeedKeys, SeedDefault, IdentifiedBy, FirstTruthy;
    var keys := SeedKeys(topic);
    var k :| 0 <= k < |keys| && IdentifiedBy(a, b, keys, k);
    SameFirstTruthy(a, b, keys, k, SeedDefault(topic, ts, a), SeedDefault(topic, ts', b));
    RouteUpper(cfg, topic, symbol, symbol', RoutingSeed(cfg.upper, topic, cfg.upper(symbol), ts, a), hash);
  }

  /** Two seeds for a topic and a symbol are equal exactly when the values in them are. */
  lemma SeedsTellApart(upper: UpperCase, topic: string, symbol: string, ts: int, ts': int, a: Payload, b: Payload)
    ensures RoutingSeed(upper, topic, symbol, ts, a) == RoutingSeed(upper, topic, symbol, ts', b)
            <==> FirstTruthy(a, SeedKeys(topic), SeedDefault(topic, ts, a))
                 == FirstTruthy(b, SeedKeys(topic), SeedDefault(topic, ts', b))
  {
    hide FirstTruthy, SeedKeys, SeedDefault;
    var head := topic + "|" + upper(symbol) + "|";
    var x, y := FirstTruthy(a, SeedKeys(topic), SeedDefault(topic, ts, a)),
                FirstTruthy(b, SeedKeys(topic), SeedDefault(topic, ts', b));
    assert (head + x)[|head|..] == x && (head + y)[|head|..] == y;
  }

  lemma EndsWithMeans(s: string, suffix: string)
    ensures EndsWith(s, suffix) <==> exists head :: s == head + suffix
  {
    if EndsWith(s, suffix) {
      assert s == s[..|s| - |suffix|] + suffix;
    }
    if head :| s == head + suffix {
      assert s[|head|..] == suffix;
    }
  }

  /** An integer in decimal, with a minus sign exactly when it is negative. */
  lemma IntTextMeans(n: int)
    ensures n >= 0 ==> AllDigits(IntText(n)) && Number(IntText(n)) == n
    ensures n < 0 ==> IntText(n)[0] == '-' && AllDigits(IntText(n)[1..]) && Number(IntText(n)[1..]) == -n
  {
    NumberOfDigits(if n >= 0 then n else -n);
  }

  predicate FilledIn(p: Payload, key: string) {
    key in p && p[key].truthy
  }

  /** The value in the seed, by the kind of the topic; an absent price reads as None. */
  lemma SeedValue(topic: string, ts: int, p: Payload)
    ensures var value := FirstTruthy(p, SeedKeys(topic), SeedDefault(topic, ts, p));
            var b, a := if "b" in p then p["b"].text else "None", if "a" in p then p["a"].text else "None";
            var prices := b + "-" + a + "-" + IntText(ts);
            if EndsWith(topic, "trade") then
              value == if FilledIn(p, "a") then p["a"].text else if FilledIn(p, "T") then p["T"].text
                       else if FilledIn(p, "E") then p["E"].text else IntText(ts)
            else if EndsWith(topic, "depth") then
              value == if FilledIn(p, "u") then p["u"].text
                       else if FilledIn(p, "lastUpdateId") then p["lastUpdateId"].text
                       else if FilledIn(p, "E") then p["E"].text else prices
            else if EndsWith(topic, "bookticker") then
              value == if FilledIn(p, "u") then p["u"].text
                       else if FilledIn(p, "E") then p["E"].text else prices
            else value == IntText(ts)
  {
    hide IntText, EndsWith;
    FirstOfThree(p, "a", "T", "E", SeedDefault(topic, ts, p));
    FirstOfThree(p, "u", "lastUpdateId", "E", SeedDefault(topic, ts, p));
    FirstOfTwo(p, "u", "E", SeedDefault(topic, ts, p));
  }

  lemma FirstOfTwo(p: Payload, k: string, l: string, otherwise: string)
    ensures FirstTruthy(p, [k, l], otherwise)
            == if Get(p, k).truthy then Get(p, k).text else if Get(p, l).truthy then Get(p, l).text else otherwise
  {
    hide Get;
    assert [k, l][1..] == [l] && [l][1..] == [];
    assert FirstTruthy(p, [l], otherwise) == if Get(p, l).truthy then Get(p, l).text else FirstTruthy(p, [], otherwise);
  }

  lemma FirstOfThree(p: Payload, k: string, l: string, m: string, otherwise: string)
    ensures FirstTruthy(p, [k, l, m], otherwise)
            == if Get(p, k).truthy then Get(p, k).text else FirstTruthy(p, [l, m], otherwise)
    ensures FirstTruthy(p, [l, m], otherwise)
            == if Get(p, l).truthy then Get(p, l).text else if Get(p, m).truthy then Get(p, m).text else otherwise
  {
    hide Get;
    FirstOfTwo(p, l, m, otherwise);
    assert [k, l, m][1..] == [l, m];
  }

  lemma RouteUpper(cfg: Config, topic: string, symbol: string, symbol': string, seed: string, hash: string -> nat)
    requires cfg.upper(symbol) == cfg.upper(symbol')
    ensures BuildRoute(cfg, topic, symbol, seed, hash) == BuildRoute(cfg, topic, symbol', seed, hash)
  {
    hide Span, LaneKey, ActiveLanes, Hot, PartitionCount;
  }
}
