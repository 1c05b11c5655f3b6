/**
  Backoff of the REST pollers: how long a poller waits after a failure, over whole runs of successes
  and failures.  Seconds and random draws are reals.
*/
module RestBackoff {
  import opened PyText

  function Max(x: real, y: real): real {
    if x >= y then x else y
  }

  function Min(x: real, y: real): real {
    if x <= y then x else y
  }

  /** The product; a name for it keeps the proofs linear. */
  function Times(x: real, y: real): real {
    x * y
  }

  /** `2 ** n`. */
  function Pow2(n: nat): (r: real)
    ensures r >= 1.0
  {
    if n == 0 then 1.0 else 2.0 * Pow2(n - 1)
  }

  datatype Config = Config(base: real, cap: real, ban: real, jitter: real)

  /** A failed request: its HTTP status, the parsed Retry-After header, and the draw of `random_fn`. */
  datatype Failure = Failure(status: Option<int>, retryAfter: Option<real>, draw: real) {
    /** What `parse_retry_after` and `random.random` return. */
    predicate Possible() {
      0.0 <= draw < 1.0 && (retryAfter.Some? ==> retryAfter.value >= 0.0)
    }

    predicate Ban() {
      status == Some(418) || status == Some(403)
    }

    /** A rate limit that says how long to wait. */
    predicate Told() {
      status == Some(429) && retryAfter.Some?
    }

    /** The failures whose delay grows with their number. */
    predicate Ordinary() {
      !Ban() && !Told()
    }
  }

  /** What a delay is multiplied by, and the ends of its range. */
  function Factor(ratio: real, draw: real): real {
    (1.0 - ratio) + Times(draw, ratio) * 2.0
  }

  function Lowest(c: Config): real {
    1.0 - Max(c.jitter, 0.0)
  }

  function Highest(c: Config): real {
    1.0 + Max(c.jitter, 0.0)
  }

  /** `_jittered_delay`. */
  function Jittered(c: Config, delay: real, draw: real): real {
    var ratio := Max(c.jitter, 0.0);
    if ratio <= 0.0 || delay <= 0.0 then Max(delay, 0.0) else Max(Times(delay, Factor(ratio, draw)), 0.0)
  }

  function Cap(c: Config): real {
    Max(c.cap, 0.0)
  }

  /** The delay of the k-th ordinary failure before jitter and cap. */
  function Doubled(c: Config, k: nat): real
    requires k >= 1
  {
    Times(c.base, Pow2(k - 1))
  }

  /** `compute_backoff_delay`. */
  function Delay(c: Config, f: Failure, failures: int): real {
    var count: nat := if failures >= 1 then failures else 1;
    var delay :=
      if f.Told() then f.retryAfter.value
      else if f.Ban() then Max(c.ban, if f.retryAfter.Some? then f.retryAfter.value else 0.0)
      else if f.status.Some? then Max(Doubled(c, count), c.base)
      else Doubled(c, count);
    Min(Jittered(c, delay, f.draw), Cap(c))
  }

  // ------------------------------------------------------------------ the object

  class RestBackoffState {
    const config: Config
    var consecutiveFailures: nat
    var currentBackoff: real
    var lastSuccess: Option<real>
    var lastError: Option<real>

    constructor (config: Config)
      ensures this.config == config && State() == START
      ensures lastSuccess.None? && lastError.None?
    {
      this.config := config;
      consecutiveFailures, currentBackoff, lastSuccess, lastError := 0, 0.0, None, None;
    }

    function State(): Backoff
      reads this
    {
      Backoff(consecutiveFailures, currentBackoff)
    }

    method RecordSuccess(now: real)
      modifies this
      ensures State() == Step(config, old(State()), Success)
      ensures lastSuccess == Some(now) && lastError == old(lastError)
    {
      consecutiveFailures := 0;
      currentBackoff := 0.0;
      lastSuccess := Some(now);
    }

    method RecordFailure(f: Failure, now: real) returns (delay: real)
      modifies this
      ensures State() == Step(config, old(State()), Failed(f)) && delay == currentBackoff
      ensures lastError == Some(now) && lastSuccess == old(lastSuccess)
    {
      consecutiveFailures := consecutiveFailures + 1;
      lastError := Some(now);
      delay := Delay(config, f, consecutiveFailures);
      currentBackoff := delay;
    }
  }

  // ------------------------------------------------------------------ runs

  datatype Backoff = Backoff(failures: nat, delay: real)

  const START := Backoff(0, 0.0)

  datatype Event = Success | Failed(f: Failure)

  function Step(c: Config, s: Backoff, e: Event): Backoff {
    match e
    case Success => START
    case Failed(f) => Backoff(s.failures + 1, Delay(c, f, s.failures + 1))
  }

  function Run(c: Config, es: seq<Event>): Backoff {
    if es == [] then START else Step(c, Run(c, es[..|es| - 1]), es[|es| - 1])
  }

  predicate AllFailed(es: seq<Event>) {
    forall e | e in es :: e.Failed?
  }

  /** The failure count is the number of failures after the last success. */
  lemma {:induction false} CountsSinceSuccess(c: Config, before: seq<Event>, after: seq<Event>)
    requires before == [] || before[|before| - 1].Success?
    requires AllFailed(after)
    ensures Run(c, before + after).failures == |after|
    decreases |after|
  {
    hide Delay;
    var es := before + after;
    if after == [] {
      assert es == before;
    } else {
      assert es[..|es| - 1] == before + after[..|after| - 1];
      assert es[|es| - 1] == after[|after| - 1] && after[|after| - 1] in after;
      CountsSinceSuccess(c, before, after[..|after| - 1]);
    }
  }

  /** Every delay of every run lies between zero and the cap. */
  lemma {:induction false} DelayWithinCap(c: Config, es: seq<Event>)
    ensures 0.0 <= Run(c, es).delay <= Max(c.cap, 0.0)
  {
    hide Doubled, Factor;
    if es != [] {
      DelayWithinCap(c, es[..|es| - 1]);
    }
  }

  // ------------------------------------------------------------------ products

  lemma Scale(d: real, x: real, y: real)
    requires d >= 0.0 && x <= y
    ensures Times(d, x) <= Times(d, y)
  {
    assert d * (y - x) >= 0.0;
  }

  lemma ScaleStrict(d: real, x: real, y: real)
    requires d > 0.0 && x < y
    ensures Times(d, x) < Times(d, y)
  {
    assert d * (y - x) > 0.0;
  }

  lemma Products(x: real, y: real)
    ensures Times(x, y) == Times(y, x) && Times(-x, y) == -Times(x, y) && Times(2.0 * x, y) == 2.0 * Times(x, y)
    ensures Times(x, 0.0) == 0.0 && Times(x, 1.0) == x
  {
  }

  // ------------------------------------------------------------------ jitter

  /** The factor stays in its range, short of the upper end. */
  lemma FactorBounds(c: Config, draw: real)
    requires 0.0 <= draw < 1.0 && c.jitter > 0.0
    ensures Lowest(c) <= Factor(Max(c.jitter, 0.0), draw) < Highest(c)
  {
    hide Times;
    Products(c.jitter, draw);
    Scale(c.jitter, 0.0, draw);
    ScaleStrict(c.jitter, draw, 1.0);
  }

  /** A jittered delay stays within the range of the factor. */
  lemma JitterBounds(c: Config, delay: real, draw: real)
    requires delay > 0.0 && 0.0 <= draw < 1.0
    ensures Times(delay, Lowest(c)) <= Jittered(c, delay, draw)
    ensures if c.jitter > 0.0 then Jittered(c, delay, draw) < Times(delay, Highest(c))
            else Jittered(c, delay, draw) == delay
  {
    hide Times;
    if c.jitter > 0.0 {
      FactorBounds(c, draw);
      Products(delay, 0.0);
      Scale(delay, Lowest(c), Factor(c.jitter, draw));
      ScaleStrict(delay, Factor(c.jitter, draw), Highest(c));
      ScaleStrict(delay, 0.0, Highest(c));
      hide Factor;
    } else {
      Products(delay, 1.0);
    }
  }

  /** At draw zero the lower end is reached. */
  lemma JitterLowest(c: Config, delay: real)
    requires delay > 0.0
    ensures Jittered(c, delay, 0.0) == Max(Times(delay, Lowest(c)), 0.0)
  {
    hide Times;
    Products(Max(c.jitter, 0.0), 0.0);
    assert Factor(Max(c.jitter, 0.0), 0.0) == Lowest(c);
    Products(delay, 1.0);
  }

  /** The k-th ordinary failure backs off by the k-th power of two, jittered and capped. */
  lemma OrdinaryDelay(c: Config, f: Failure, k: nat)
    requires f.Ordinary() && k >= 1
    ensures c.base > 0.0 ==>
              && Doubled(c, k) >= c.base
              && Delay(c, f, k) == Min(Jittered(c, Doubled(c, k), f.draw), Cap(c))
    ensures c.base <= 0.0 ==> Delay(c, f, k) == 0.0
  {
    hide Times;
    Products(c.base, 1.0);
    if c.base > 0.0 {
      Scale(c.base, 1.0, Pow2(k - 1));
    } else {
      Products(c.base, Pow2(k - 1));
      Products(-c.base, 1.0);
      Scale(-c.base, 1.0, Pow2(k - 1));
    }
    hide Factor, Pow2;
  }

  /** One failure more doubles the delay. */
  lemma NextDoubles(c: Config, k: nat)
    requires k >= 1
    ensures Doubled(c, k + 1) == 2.0 * Doubled(c, k)
  {
    assert Pow2(k) == 2.0 * Pow2(k - 1);
  }

  lemma {:induction false} DoubledGrows(c: Config, k: nat, j: nat)
    requires c.base > 0.0 && 1 <= k <= j
    ensures 0.0 < Doubled(c, k) <= Doubled(c, j)
    decreases j
  {
    hide Times;
    if k < j {
      DoubledGrows(c, k, j - 1);
      NextDoubles(c, j - 1);
    } else {
      Products(c.base, 1.0);
      Scale(c.base, 1.0, Pow2(k - 1));
    }
  }

  /** The lower end of the range grows with the number of failures, unless it is negative. */
  lemma LowEndGrows(c: Config, k: nat, j: nat)
    requires c.base > 0.0 && 1 <= k <= j
    ensures Max(Times(Doubled(c, k), Lowest(c)), 0.0) <= Max(Times(Doubled(c, j), Lowest(c)), 0.0)
  {
    DoubledGrows(c, k, j);
    hide Doubled, Lowest, Times;
    var low := Lowest(c);
    Products(Doubled(c, k), low);
    Products(Doubled(c, j), low);
    if low >= 0.0 {
      Scale(low, Doubled(c, k), Doubled(c, j));
    } else {
      ScaleStrict(Doubled(c, k), low, 0.0);
    }
  }

  /** The wait that the kind of failure asks for: what the server told with 429; for 418 and 403 at least
      the ban time; otherwise the base, doubled with every failure after the first. */
  function Asked(c: Config, f: Failure, failures: nat): real
    requires failures >= 1
  {
    if f.status == Some(429) && f.retryAfter.Some? then f.retryAfter.value
    else if f.status == Some(418) || f.status == Some(403) then
      if f.retryAfter.Some? && f.retryAfter.value > c.ban then f.retryAfter.value
      else if f.retryAfter.None? && c.ban < 0.0 then 0.0 else c.ban
    else if f.status.Some? && c.base < 0.0 then c.base
    else Times(c.base, Pow2(failures - 1))
  }

  /** The delay is that wait, moved by at most the jitter ratio, and cut to between zero and the cap. */
  lemma DelayExactly(c: Config, f: Failure, failures: nat)
    requires f.Possible() && failures >= 1
    ensures var asked, cap := Asked(c, f, failures), if c.cap > 0.0 then c.cap else 0.0;
            var delay := Delay(c, f, failures);
            if asked <= 0.0 then delay == 0.0
            else if c.jitter <= 0.0 then delay == Min(asked, cap)
            else Min(Max(Times(asked, 1.0 - c.jitter), 0.0), cap) <= delay <= Min(Times(asked, 1.0 + c.jitter), cap)
    ensures Pow2(0) == 1.0 && forall n: nat :: Pow2(n + 1) == 2.0 * Pow2(n)
    ensures forall n | n < 1 :: Delay(c, f, n) == Delay(c, f, 1)
  {
    hide Times, Factor;
    var asked := Asked(c, f, failures);
    AskedIs(c, f, failures);
    assert Delay(c, f, failures) == Min(Jittered(c, asked, f.draw), Cap(c)) by {
      hide Jittered, Asked;
    }
    if asked > 0.0 {
      JitterBounds(c, asked, f.draw);
      NotNegative(c, asked, f.draw);
    }
    hide Delay, Asked;
  }

  lemma AskedIs(c: Config, f: Failure, failures: nat)
    requires f.Possible() && failures >= 1
    ensures Delay(c, f, failures) == Min(Jittered(c, Asked(c, f, failures), f.draw), Cap(c))
  {
    hide Jittered, Times, Pow2;
    if c.base < 0.0 {
      Products(-c.base, 1.0);
      Scale(-c.base, 1.0, Pow2(failures - 1));
      Products(c.base, Pow2(failures - 1));
    } else {
      Products(c.base, 1.0);
      Scale(c.base, 1.0, Pow2(failures - 1));
    }
  }

  // ------------------------------------------------------------------ delays that never decrease

  /** When the lower end of a delay reaches the upper end of the one before: a ratio of at most a
      third.  Or the cap is reached by the second failure at the latest, whatever it draws. */
  predicate Steady(c: Config) {
    c.base <= 0.0 || c.jitter <= 1.0 / 3.0 || Cap(c) <= Max(Times(Doubled(c, 2), Lowest(c)), 0.0)
  }

  ghost predicate Growing(c: Config) {
    forall f: Failure, g: Failure, k: nat | f.Ordinary() && g.Ordinary() && f.Possible() && g.Possible() && k >= 1 ::
      Delay(c, f, k) <= Delay(c, g, k + 1)
  }

  lemma SteadyStep(c: Config, f: Failure, g: Failure, k: nat)
    requires Steady(c) && f.Ordinary() && g.Ordinary() && f.Possible() && g.Possible() && k >= 1
    ensures Delay(c, f, k) <= Delay(c, g, k + 1)
  {
    hide Delay, Jittered, Failure.Ordinary, Cap, Times, Doubled, Lowest;
    OrdinaryDelay(c, f, k);
    OrdinaryDelay(c, g, k + 1);
    if c.base > 0.0 {
      var d := Doubled(c, k);
      NextDoubles(c, k);
      JitterBounds(c, d, f.draw);
      JitterBounds(c, 2.0 * d, g.draw);
      if c.jitter <= 1.0 / 3.0 {
        ThirdIsEnough(c, d);
      } else {
        LowEndGrows(c, 2, k + 1);
        NotNegative(c, 2.0 * d, g.draw);
      }
    }
  }

  lemma NotNegative(c: Config, delay: real, draw: real)
    ensures Jittered(c, delay, draw) >= 0.0
  {
  }

  lemma ThirdIsEnough(c: Config, d: real)
    requires d > 0.0 && c.jitter <= 1.0 / 3.0
    ensures Times(d, Highest(c)) <= Times(2.0 * d, Lowest(c)) && d <= Times(2.0 * d, Lowest(c))
  {
    hide Times;
    var high, low := Highest(c), Lowest(c);
    assert 1.0 <= high <= 2.0 * low;
    Products(d, 1.0);
    Products(d, low);
    Products(low, d);
    Scale(d, high, 2.0 * low);
    Scale(d, 1.0, 2.0 * low);
    Products(2.0 * low, d);
  }

  /** Past a third, and below the cap, a high draw followed by a low one shortens the delay. */
  lemma UnsteadyFails(c: Config)
    requires !Steady(c)
    ensures !Growing(c)
  {
    hide Times;
    var low := Max(Times(Doubled(c, 2), Lowest(c)), 0.0);
    var draw := HighDraw(c);
    var first, second := Failure(None, None, draw), Failure(None, None, 0.0);
    assert first.Ordinary() && first.Possible() && second.Ordinary() && second.Possible();
    OrdinaryDelay(c, second, 2);
    OrdinaryDelay(c, first, 1);
    JitterLowest(c, Doubled(c, 2));
    assert Jittered(c, Doubled(c, 1), draw) > low;
    hide Delay, Jittered, Doubled, Lowest, Cap, Failure.Ordinary, Failure.Possible;
    assert Delay(c, second, 2) == low;
    assert !(Delay(c, first, 1) <= Delay(c, second, 2));
  }

  /** Some draw lifts the first delay above the lowest second one: the one in the middle between a
      factor that is not enough and the upper end. */
  lemma HighDraw(c: Config) returns (draw: real)
    requires c.base > 0.0 && c.jitter > 1.0 / 3.0
    ensures 0.0 <= draw < 1.0
    ensures Doubled(c, 1) == c.base
    ensures Times(c.base, Factor(Max(c.jitter, 0.0), draw)) > Max(Times(Doubled(c, 2), Lowest(c)), 0.0)
  {
    hide Times;
    var low, high := Lowest(c), Highest(c);
    var target := Max(2.0 * low, 0.0);
    var factor := (target + high) / 2.0;
    draw := DrawFor(c, factor);
    assert target < factor;
    NextDoubles(c, 1);
    assert Pow2(0) == 1.0;
    Products(c.base, 1.0);
    hide Factor, Lowest, Highest, Doubled, Pow2;
    ScaleStrict(c.base, target, factor);
    Scale(c.base, 2.0 * low, target);
    Scale(c.base, 0.0, target);
    Products(c.base, low);
    Products(low, c.base);
    Products(2.0 * low, c.base);
  }

  lemma DrawFor(c: Config, factor: real) returns (draw: real)
    requires c.jitter > 0.0 && Lowest(c) <= factor < Highest(c)
    ensures 0.0 <= draw < 1.0 && Factor(Max(c.jitter, 0.0), draw) == factor
  {
    var width := 2.0 * c.jitter;
    var above := factor - Lowest(c);
    draw := above / width;
    assert Times(draw, width) == above && 0.0 <= above < width;
    hide Times;
    Products(draw, width);
    Products(c.jitter, draw);
    Products(width, 0.0);
    Products(width, 1.0);
    if draw >= 1.0 {
      Scale(width, 1.0, draw);
    }
    if draw < 0.0 {
      ScaleStrict(width, draw, 0.0);
    }
  }

  /** Successive ordinary failures never shorten the delay, whatever the draws, exactly when the
      configuration is steady. */
  lemma GrowingExactly(c: Config)
    ensures Growing(c) <==> Steady(c)
  {
    if Steady(c) {
      hide Steady, Delay, Failure.Ordinary, Failure.Possible;
      forall f: Failure, g: Failure, k: nat | f.Ordinary() && g.Ordinary() && f.Possible() && g.Possible() && k >= 1
        ensures Delay(c, f, k) <= Delay(c, g, k + 1)
      {
        SteadyStep(c, f, g, k);
      }
    } else {
      UnsteadyFails(c);
    }
  }

  /** Over a run: between successes the delays of ordinary failures never decrease. */
  lemma {:induction false} DelaysGrowOverRun(c: Config, before: seq<Event>, after: seq<Event>, i: nat)
    requires Steady(c)
    requires before == [] || before[|before| - 1].Success?
    requires forall e | e in after :: e.Failed? && e.f.Ordinary() && e.f.Possible()
    requires 1 <= i <= |after|
    ensures Run(c, before + after[..i]).delay <= Run(c, before + after).delay
    decreases |after|
  {
    hide Steady, Run, Delay, Failure.Ordinary, Failure.Possible;
    if i == |after| {
      assert after[..i] == after;
    } else {
      var n := |after|;
      var shorter := after[..n - 1];
      assert shorter[..i] == after[..i];
      DelaysGrowOverRun(c, before, shorter, i);
      LastDelay(c, before, shorter);
      LastDelay(c, before, after);
      SteadyStep(c, after[n - 2].f, after[n - 1].f, n - 1);
    }
  }

  lemma {:induction false} LastDelay(c: Config, before: seq<Event>, after: seq<Event>)
    requires before == [] || before[|before| - 1].Success?
    requires after != [] && AllFailed(after)
    ensures Run(c, before + after).delay == Delay(c, after[|after| - 1].f, |after|)
  {
    hide Delay;
    var es, rest := before + after, after[..|after| - 1];
    assert es[..|es| - 1] == before + rest && es[|es| - 1] == after[|after| - 1];
    assert after[|after| - 1] in after;
    CountsSinceSuccess(c, before, rest);
  }

  // ------------------------------------------------------------------ the plateau

  /** The k-th and all later ordinary delays are the cap whatever the draws, exactly when the lower
      end of the k-th delay has reached the cap. */
  lemma PlateauExactly(c: Config, k: nat)
    requires c.base > 0.0 && c.cap > 0.0 && k >= 1
    ensures (forall f: Failure, j: nat | f.Ordinary() && f.Possible() && j >= k :: Delay(c, f, j) == c.cap)
            <==> Times(Doubled(c, k), Lowest(c)) >= c.cap
  {
    hide Doubled, Lowest, Delay, Times;
    if Times(Doubled(c, k), Lowest(c)) >= c.cap {
      hide Failure.Ordinary, Failure.Possible;
      forall f: Failure, j: nat | f.Ordinary() && f.Possible() && j >= k ensures Delay(c, f, j) == c.cap {
        AtCap(c, f, k, j);
      }
    } else {
      var f := Failure(None, None, 0.0);
      assert f.Ordinary() && f.Possible();
      OrdinaryDelay(c, f, k);
      hide Jittered, Failure.Ordinary, Failure.Possible;
      JitterLowest(c, Doubled(c, k));
      assert Delay(c, f, k) != c.cap;
    }
  }

  lemma AtCap(c: Config, f: Failure, k: nat, j: nat)
    requires c.base > 0.0 && c.cap > 0.0 && 1 <= k <= j && f.Ordinary() && f.Possible()
    requires Times(Doubled(c, k), Lowest(c)) >= c.cap
    ensures Delay(c, f, j) == c.cap
  {
    hide Doubled, Lowest, Highest, Delay, Jittered, Failure.Ordinary, Times;
    OrdinaryDelay(c, f, j);
    DoubledGrows(c, k, j);
    LowEndGrows(c, k, j);
    JitterBounds(c, Doubled(c, j), f.draw);
  }

  // ------------------------------------------------------------------ waiting as told

  /** A Retry-After or a ban is kept but for the jitter and the cap, however many failures came before. */
  lemma WaitsAsTold(c: Config, f: Failure, j: int, k: int)
    requires !f.Ordinary() && f.Possible()
    ensures Delay(c, f, j) == Delay(c, f, k)
    ensures f.retryAfter.Some? ==> Delay(c, f, k) >= Min(Times(f.retryAfter.value, Lowest(c)), Cap(c))
    ensures f.Ban() && c.ban >= 0.0 ==> Delay(c, f, k) >= Min(Times(c.ban, Lowest(c)), Cap(c))
  {
    hide Doubled, Lowest, Highest, Cap, Times;
    var low := Lowest(c);
    var told := if f.retryAfter.Some? then f.retryAfter.value else 0.0;
    var delay := if f.Ban() then Max(c.ban, told) else told;
    assert Delay(c, f, k) == Min(Jittered(c, delay, f.draw), Cap(c));
    Products(delay, 0.0);
    Products(delay, low);
    Products(low, delay);
    assert Times(delay, low) <= Jittered(c, delay, f.draw) by {
      if delay > 0.0 { JitterBounds(c, delay, f.draw); } else { Products(low, 0.0); }
    }
    NotNegative(c, delay, f.draw);
    hide Jittered, Delay;
    Shrunk(low, told, delay);
    if f.Ban() && c.ban >= 0.0 {
      Shrunk(low, c.ban, delay);
    }
  }

  lemma Shrunk(low: real, x: real, y: real)
    requires 0.0 <= x <= y
    ensures Times(x, low) <= Max(Times(y, low), 0.0)
  {
    hide Times;
    Products(x, low);
    Products(y, low);
    if low >= 0.0 {
      Scale(low, x, y);
    } else {
      Products(x, 0.0);
      Scale(x, low, 0.0);
    }
  }
}
