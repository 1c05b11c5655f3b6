/**
  Validation of a collector event against its topic's contract.  Values are what `json.loads` gives;
  how Python reads a text as a number, an integer, a digit or a date is a parameter.
*/
module ContractValidation {
  import opened PyText

  /** What `float` gives.  Comparisons with NaN are false. */
  datatype Double = Finite(x: real) | Infinite(positive: bool) | NaN
  {
    predicate AtMost(other: Double) {
      match (this, other)
      case (NaN, _) => false
      case (_, NaN) => false
      case (Finite(a), Finite(b)) => a <= b
      case (Infinite(up), _) => !up || other == this
      case (_, Infinite(up)) => up
    }

    predicate Below(other: Double) {
      AtMost(other) && !other.AtMost(this)
    }
  }

  const ZERO := Finite(0.0)

  /** `json.loads` also gives the infinities and NaN. */
  datatype Value = NoneValue | Boolean(b: bool) | Int(n: int) | Float(x: Double) | Str(text: string) | Container

  /** What reading a value as a time gives: nothing, a time, or an exception. */
  datatype Reading = NoTime | Time(ms: int) | TimeRaises

  /** `float(text)`, whether `int(text)` succeeds, `char.isdigit()`, the date branch of the time reader
      (`fromisoformat` and `timestamp()`, which may raise), and which integers `float` takes: on the
      others it raises OverflowError, which no check catches. */
  datatype Texts = Texts(number: string -> Option<Double>, integer: string -> bool, digit: char -> bool,
                         date: string -> Reading, floats: int -> bool)
  {
    /** A text that `int` reads, `float` reads; one and minus one are not too large. */
    ghost predicate Consistent() {
      (forall text | integer(text) :: number(text).Some?) && floats(1) && floats(-1)
    }
  }

  type Payload = map<string, Value>

  function Get(p: Payload, key: string): Value {
    if key in p then p[key] else NoneValue
  }

  predicate Blank(v: Value) {
    v == NoneValue || v == Str("")
  }

  /** `float(value)`; None is an exception. */
  function AsFloat(py: Texts, v: Value): Option<Double> {
    match v
    case NoneValue => None
    case Boolean(b) => Some(Finite(if b then 1.0 else 0.0))
    case Int(n) => if py.floats(n) then Some(Finite(n as real)) else None
    case Float(x) => Some(x)
    case Str(text) => py.number(text)
    case Container => None
  }

  predicate NumberLike(py: Texts, v: Value) {
    !v.Boolean? && !Blank(v) && AsFloat(py, v).Some?
  }

  /** `float(value)` raises OverflowError. */
  predicate Oversize(py: Texts, v: Value) {
    v.Int? && !py.floats(v.n)
  }

  /** `int(value)` raises OverflowError. */
  predicate Unbounded(v: Value) {
    v.Float? && v.x.Infinite?
  }

  predicate IntLike(py: Texts, v: Value) {
    match v
    case Int(_) => true
    case Float(x) => x.Finite?
    case Str(text) => text != "" && py.integer(text)
    case _ => false
  }

  /** `int(x)`: towards zero. */
  function Truncate(x: real): int {
    if x >= 0.0 then x.Floor else -((-x).Floor)
  }

  /** `s.replace(c, "", 1)`. */
  function WithoutFirst(s: string, c: char): string {
    match Find(s, c)
    case None => s
    case Some(i) => s[..i] + s[i + 1..]
  }

  /** `s.isdigit()`. */
  predicate DigitText(py: Texts, s: string) {
    s != "" && forall c | c in s :: py.digit(c)
  }

  /** `int(x)`, which raises on an infinity and on NaN. */
  function IntegerTime(x: Double): Reading {
    if x.Finite? then Time(Truncate(x.x)) else TimeRaises
  }

  /** A text as a time before it is scaled.  Neither conversion of a digit text is guarded. */
  function ReadText(py: Texts, text: string): Reading {
    var stripped := Strip(text);
    if stripped == "" then NoTime
    else if DigitText(py, WithoutFirst(stripped, '.')) then
      match py.number(stripped)
      case None => TimeRaises
      case Some(x) => IntegerTime(x)
    else py.date(stripped)
  }

  /** Times below ten digits are taken for seconds. */
  function Scaled(r: Reading): Reading {
    match r
    case Time(t) => if t <= 0 then NoTime else if t < 10_000_000_000 then Time(t * 1000) else r
    case _ => r
  }

  /** `_coerce_timestamp_ms`. */
  function TimeMs(py: Texts, v: Value): Reading {
    match v
    case Int(n) => Scaled(Time(n))
    case Float(x) => Scaled(IntegerTime(x))
    case Str(text) => Scaled(ReadText(py, text))
    case _ => NoTime
  }

  // ------------------------------------------------------------------ contracts

  datatype FieldType = Number | Integer | Timestamp | Unchecked

  datatype Field = Field(key: string, expected: FieldType)

  /** A rule split at its colons. */
  datatype Rule = Rule(name: string, fields: seq<string>)

  datatype Contract = Contract(timeFields: seq<string>, requireTime: bool, required: seq<Field>,
                               requiredAny: seq<seq<string>>, fieldTypes: seq<Field>, optional: seq<Field>,
                               rules: seq<Rule>)
  {
    /** The keys that `infer_event_time_ms` tries. */
    function TimeKeys(): (r: seq<string>)
      ensures r != []
    {
      if timeFields != [] then timeFields
      else ["E", "T", "event_time", "eventTime", "trade_time", "time", "timestamp", "ts", "nextFundingTime"]
    }
  }

  datatype Reason = BadTime | TimeMissing | TimeAhead | FieldMissing(key: string) | FieldInvalid(key: string)
                  | AnyMissing | NonPositive(key: string) | Crossed | Negative

  datatype Verdict = Accepted | Rejected(reason: Reason) | Raises

  const MAX_FUTURE_EVENT_MS := 60_000

  /** A check that passes hands over to the next one. */
  function Then(v: Verdict, next: Verdict): Verdict {
    if v.Accepted? then next else v
  }

  /** `_validate_optional_timestamps`. */
  function CheckTimes(py: Texts, p: Payload, keys: seq<string>): Verdict {
    if keys == [] then Accepted else Then(CheckTime(py, Get(p, keys[0])), CheckTimes(py, p, keys[1..]))
  }

  function CheckTime(py: Texts, v: Value): Verdict {
    if Blank(v) then Accepted
    else
      match TimeMs(py, v)
      case NoTime => Rejected(BadTime)
      case Time(_) => Accepted
      case TimeRaises => Raises
  }

  /** `infer_event_time_ms`: the first key that holds a time. */
  function InferTime(py: Texts, p: Payload, keys: seq<string>): Reading {
    if keys == [] then NoTime
    else if TimeMs(py, Get(p, keys[0])).NoTime? then InferTime(py, p, keys[1..])
    else TimeMs(py, Get(p, keys[0]))
  }

  function CheckEventTime(py: Texts, c: Contract, p: Payload, ts: int): Verdict {
    match InferTime(py, p, c.TimeKeys())
    case TimeRaises => Raises
    case NoTime => if c.requireTime then Rejected(TimeMissing) else Accepted
    case Time(t) => if t > ts + MAX_FUTURE_EVENT_MS then Rejected(TimeAhead) else Accepted
  }

  /** `_validate_type`; None is an exception. */
  function HasType(py: Texts, v: Value, expected: FieldType): Option<bool> {
    if Blank(v) then Some(true)
    else
      match expected
      case Number => if Oversize(py, v) then None else Some(NumberLike(py, v))
      case Integer => if Unbounded(v) then None else Some(IntLike(py, v))
      case Timestamp => if TimeMs(py, v).TimeRaises? then None else Some(TimeMs(py, v).Time?)
      case Unchecked => Some(true)
  }

  function CheckField(py: Texts, p: Payload, f: Field, mustExist: bool): Verdict {
    if mustExist && Blank(Get(p, f.key)) then Rejected(FieldMissing(f.key))
    else
      match HasType(py, Get(p, f.key), f.expected)
      case None => Raises
      case Some(ok) => if ok then Accepted else Rejected(FieldInvalid(f.key))
  }

  function CheckEach(py: Texts, p: Payload, fields: seq<Field>, mustExist: bool): Verdict {
    if fields == [] then Accepted
    else Then(CheckField(py, p, fields[0], mustExist), CheckEach(py, p, fields[1..], mustExist))
  }

  predicate HasAny(p: Payload, keys: seq<string>) {
    exists i :: 0 <= i < |keys| && !Blank(Get(p, keys[i]))
  }

  function CheckAny(p: Payload, groups: seq<seq<string>>): Verdict {
    if groups == [] then Accepted
    else Then(if HasAny(p, groups[0]) then Accepted else Rejected(AnyMissing), CheckAny(p, groups[1..]))
  }

  /** `all(float(value) < 0 for value in values)` over the values that are not blank; it stops at the
      first that is not negative. */
  function AllNegative(py: Texts, p: Payload, fields: seq<string>): Option<bool> {
    if fields == [] then Some(true)
    else
      var v := Get(p, fields[0]);
      if Blank(v) then AllNegative(py, p, fields[1..])
      else
        match AsFloat(py, v)
        case None => None
        case Some(x) => if x.Below(ZERO) then AllNegative(py, p, fields[1..]) else Some(false)
  }

  function ApplyRule(py: Texts, p: Payload, r: Rule): Verdict {
    if r.name == "positive_price" || r.name == "positive_quantity" then
      if r.fields == [] then Raises
      else
        match AsFloat(py, Get(p, r.fields[0]))
        case None => Raises
        case Some(x) => if x.AtMost(ZERO) then Rejected(NonPositive(r.fields[0])) else Accepted
    else if r.name == "bid_lte_ask" then
      if |r.fields| < 2 then Raises
      else
        var bid, ask := AsFloat(py, Get(p, r.fields[0])), AsFloat(py, Get(p, r.fields[1]));
        if bid.None? || ask.None? then Raises
        else if ask.value.Below(bid.value) then Rejected(Crossed) else Accepted
    else if r.name == "non_negative_any" then
      match AllNegative(py, p, r.fields)
      case None => Raises
      case Some(all) => if HasAny(p, r.fields) && all then Rejected(Negative) else Accepted
    else Accepted
  }

  function ApplyRules(py: Texts, p: Payload, rules: seq<Rule>): Verdict {
    if rules == [] then Accepted else Then(ApplyRule(py, p, rules[0]), ApplyRules(py, p, rules[1..]))
  }

  /** The checks before the quality rules. */
  function CheckFields(py: Texts, c: Contract, p: Payload, ts: int): Verdict {
    Then(CheckTimes(py, p, c.timeFields),
         Then(CheckEventTime(py, c, p, ts),
              Then(CheckEach(py, p, c.required, true),
                   Then(CheckAny(p, c.requiredAny),
                        Then(CheckEach(py, p, c.fieldTypes, false), CheckEach(py, p, c.optional, false))))))
  }

  /** `_validate_contract`. */
  function Validate(py: Texts, c: Contract, p: Payload, ts: int): Verdict {
    Then(CheckFields(py, c, p, ts), ApplyRules(py, p, c.rules))
  }

  // ------------------------------------------------------------------ what the conversions accept

  /** What converts to a number: numbers, not booleans, within the range of `float`, and texts that it reads. */
  predicate IsNumber(py: Texts, v: Value) {
    v.Float? || (v.Int? && py.floats(v.n)) || (v.Str? && v.text != "" && py.number(v.text).Some?)
  }

  predicate IsInteger(py: Texts, v: Value) {
    v.Int? || (v.Float? && v.x.Finite?) || (v.Str? && v.text != "" && py.integer(v.text))
  }

  /** A type check lets through what is blank and what converts, and raises on numbers out of range alone. */
  lemma TypesExactly(py: Texts, v: Value)
    ensures HasType(py, v, Number) == if v.Int? && !py.floats(v.n) then None
                                      else Some(v == NoneValue || v == Str("") || IsNumber(py, v))
    ensures HasType(py, v, Integer) == if v.Float? && v.x.Infinite? then None
                                       else Some(v == NoneValue || v == Str("") || IsInteger(py, v))
    ensures HasType(py, v, Timestamp) == if TimeMs(py, v).TimeRaises? then None
                                         else Some(v == NoneValue || v == Str("") || TimeMs(py, v).Time?)
    ensures HasType(py, v, Unchecked) == Some(true)
  {
  }

  /** What a rule converts: also booleans, as 0 and 1; and the number that it gets. */
  lemma FloatsExactly(py: Texts, v: Value)
    ensures AsFloat(py, v).Some? <==> IsNumber(py, v) || v.Boolean? || (v == Str("") && py.number("").Some?)
    ensures AsFloat(py, v).Some? ==>
              && (v.Int? ==> AsFloat(py, v).value == Finite(v.n as real))
              && (v.Float? ==> AsFloat(py, v).value == v.x)
              && (v.Boolean? ==> AsFloat(py, v).value == if v.b then Finite(1.0) else Finite(0.0))
              && (v.Str? ==> Some(AsFloat(py, v).value) == py.number(v.text))
  {
  }

  /** Whole seconds below ten digits, whole milliseconds from there on; nothing else is a time. */
  predicate TimeOf(whole: int, ms: int) {
    (0 < whole < 10_000_000_000 && ms == whole * 1000) || (whole >= 10_000_000_000 && ms == whole)
  }

  /** x rounded towards zero. */
  predicate Rounded(x: real, whole: int) {
    if x >= 0.0 then whole as real <= x < whole as real + 1.0 else whole as real - 1.0 < x <= whole as real
  }

  /** A number is a time by its whole part, unless it is an infinity or NaN, on which `int` raises. */
  lemma NumbersAsTimes(py: Texts, v: Value, ms: int)
    ensures v.Int? ==> (TimeMs(py, v) == Time(ms) <==> TimeOf(v.n, ms)) && !TimeMs(py, v).TimeRaises?
    ensures v.Float? && v.x.Finite? ==>
              && (TimeMs(py, v) == Time(ms) <==> exists k :: Rounded(v.x.x, k) && TimeOf(k, ms))
              && !TimeMs(py, v).TimeRaises?
    ensures v.Float? && !v.x.Finite? ==> TimeMs(py, v).TimeRaises?
    ensures !v.Int? && !v.Float? && !v.Str? ==> TimeMs(py, v) == NoTime
  {
    if v.Float? && v.x.Finite? {
      var k := Truncate(v.x.x);
      RoundedOnce(v.x.x, k);
      assert Rounded(v.x.x, k);
    }
  }

  lemma RoundedOnce(x: real, k: int)
    requires Truncate(x) == k
    ensures forall n :: Rounded(x, n) <==> n == k
  {
    assert (-k) as real == -(k as real);
  }

  /** Nothing but digits and at most one point; the texts whose `float` is not guarded. */
  predicate DigitsAndPoint(py: Texts, s: string) {
    exists i :: 0 <= i <= |s| && DigitsAround(py, s, i)
  }

  /** The text consists of digits, but for a point at i if there is one there. */
  predicate DigitsAround(py: Texts, s: string, i: nat)
    requires i <= |s|
  {
    && (forall j | 0 <= j < i :: s[j] != '.' && py.digit(s[j]))
    && (i < |s| ==> s[i] == '.' && |s| > 1)
    && (i == |s| ==> s != "")
    && (forall j | i < j < |s| :: py.digit(s[j]))
  }

  /** Such a text is a time by its number, and raises where it has none that is finite; any other text
      that is not blank is left to the date reader. */
  lemma TextsAsTimes(py: Texts, text: string, ms: int)
    ensures var s, v := Strip(text), Str(text);
            && (s == "" ==> TimeMs(py, v) == NoTime)
            && (s != "" && DigitsAndPoint(py, s) ==>
                  && (TimeMs(py, v).TimeRaises? <==> py.number(s).None? || !py.number(s).value.Finite?)
                  && (TimeMs(py, v) == Time(ms) <==>
                        && py.number(s).Some? && py.number(s).value.Finite?
                        && exists k :: Rounded(py.number(s).value.x, k) && TimeOf(k, ms)))
            && (s != "" && !DigitsAndPoint(py, s) ==>
                  && (TimeMs(py, v).TimeRaises? <==> py.date(s).TimeRaises?)
                  && (TimeMs(py, v) == Time(ms) <==> py.date(s).Time? && TimeOf(py.date(s).ms, ms)))
  {
    var s := Strip(text);
    hide Strip, WithoutFirst, DigitText, DigitsAndPoint;
    if s != "" {
      DigitTextExactly(py, s);
      if DigitText(py, WithoutFirst(s, '.')) && py.number(s).Some? && py.number(s).value.Finite? {
        var x := py.number(s).value.x;
        RoundedOnce(x, Truncate(x));
        assert Rounded(x, Truncate(x));
      }
    }
  }

  lemma DigitTextExactly(py: Texts, s: string)
    requires s != ""
    ensures DigitText(py, WithoutFirst(s, '.')) <==> DigitsAndPoint(py, s)
  {
    var rest := WithoutFirst(s, '.');
    match Find(s, '.')
    case None =>
      assert rest == s;
      if DigitText(py, rest) {
        assert forall j | 0 <= j < |s| :: s[j] in s;
        assert DigitsAround(py, s, |s|);
      }
      if i: nat :| i <= |s| && DigitsAround(py, s, i) {
        assert i == |s|;
        assert forall c | c in s :: py.digit(c);
      }
    case Some(k) =>
      assert rest == s[..k] + s[k + 1..];
      assert forall j | 0 <= j < k :: rest[j] == s[j] && s[j] in s[..k];
      assert forall j | k < j < |s| :: rest[j - 1] == s[j];
      if DigitText(py, rest) {
        assert forall j | 0 <= j < |rest| :: rest[j] in rest;
        assert DigitsAround(py, s, k);
      }
      if i: nat :| i <= |s| && DigitsAround(py, s, i) {
        assert i == k;
        assert forall c | c in rest :: py.digit(c);
      }
  }

  /** The event time is that of the first key that holds a time or raises. */
  lemma {:induction false} InferExactly(py: Texts, p: Payload, keys: seq<string>)
    ensures InferTime(py, p, keys) == NoTime <==> forall k | 0 <= k < |keys| :: TimeMs(py, Get(p, keys[k])) == NoTime
    ensures forall k | 0 <= k < |keys| && TimeMs(py, Get(p, keys[k])) != NoTime
                       && (forall j | 0 <= j < k :: TimeMs(py, Get(p, keys[j])) == NoTime) ::
              InferTime(py, p, keys) == TimeMs(py, Get(p, keys[k]))
  {
    hide TimeMs;
    if keys != [] {
      var rest := keys[1..];
      InferExactly(py, p, rest);
      assert forall k | 1 <= k < |keys| :: keys[k] == rest[k - 1];
    }
  }

  /** Without fields of its own a contract takes the event time from any of nine. */
  lemma NamedTimes(py: Texts, c: Contract, name: string)
    requires c.timeFields == []
    ensures InferTime(py, map[name := Int(1)], c.TimeKeys()).Time? <==>
              name in {"E", "T", "event_time", "eventTime", "trade_time", "time", "timestamp", "ts", "nextFundingTime"}
  {
    var p, keys: seq<string> := map[name := Int(1)], c.TimeKeys();
    assert keys == ["E", "T", "event_time", "eventTime", "trade_time", "time", "timestamp", "ts", "nextFundingTime"];
    hide Contract.TimeKeys;
    forall k | 0 <= k < |keys| ensures TimeMs(py, Get(p, keys[k])) == if keys[k] == name then Time(1000) else NoTime {
    }
    hide TimeMs, InferTime;
    InferExactly(py, p, keys);
    if name in keys {
      FirstName(keys, name);
    }
  }

  lemma {:induction false} FirstName(keys: seq<string>, name: string)
    requires name in keys
    ensures exists k :: 0 <= k < |keys| && keys[k] == name && forall j | 0 <= j < k :: keys[j] != name
  {
    if keys[0] != name {
      FirstName(keys[1..], name);
      var k :| 0 <= k < |keys[1..]| && keys[1..][k] == name && forall j | 0 <= j < k :: keys[1..][j] != name;
      assert forall j | 1 <= j < k + 1 :: keys[j] == keys[1..][j - 1];
      assert keys[k + 1] == name;
    }
  }

  // ------------------------------------------------------------------ what acceptance means

  predicate FieldHolds(py: Texts, p: Payload, f: Field, mustExist: bool) {
    (mustExist ==> !Blank(Get(p, f.key))) && HasType(py, Get(p, f.key), f.expected) == Some(true)
  }

  predicate TimeReadable(py: Texts, v: Value) {
    Blank(v) || TimeMs(py, v).Time?
  }

  lemma {:induction false} TimesAccepted(py: Texts, p: Payload, keys: seq<string>)
    ensures CheckTimes(py, p, keys).Accepted? <==> forall k | k in keys :: TimeReadable(py, Get(p, k))
  {
    hide TimeMs, Blank;
    if keys != [] {
      TimesAccepted(py, p, keys[1..]);
      assert keys[0] in keys;
      assert forall k :: k in keys <==> k == keys[0] || k in keys[1..];
    }
  }

  lemma {:induction false} EachAccepted(py: Texts, p: Payload, fields: seq<Field>, mustExist: bool)
    ensures CheckEach(py, p, fields, mustExist).Accepted? <==> forall f | f in fields :: FieldHolds(py, p, f, mustExist)
  {
    hide HasType;
    if fields != [] {
      EachAccepted(py, p, fields[1..], mustExist);
      assert fields[0] in fields;
      assert forall f :: f in fields <==> f == fields[0] || f in fields[1..];
    }
  }

  lemma {:induction false} AnyAccepted(p: Payload, groups: seq<seq<string>>)
    ensures CheckAny(p, groups).Accepted? <==> forall names | names in groups :: HasAny(p, names)
  {
    hide HasAny;
    if groups != [] {
      AnyAccepted(p, groups[1..]);
      assert groups[0] in groups;
      assert forall g :: g in groups <==> g == groups[0] || g in groups[1..];
    }
  }

  /** The field converts to a number above zero, or to NaN. */
  predicate PositiveOrNaN(py: Texts, v: Value) {
    AsFloat(py, v).Some? && (AsFloat(py, v).value.NaN? || ZERO.Below(AsFloat(py, v).value))
  }

  /** Both fields convert, to numbers in order or one of them to NaN. */
  predicate OrderedOrNaN(py: Texts, v: Value, w: Value) {
    && AsFloat(py, v).Some? && AsFloat(py, w).Some?
    && (AsFloat(py, v).value.NaN? || AsFloat(py, w).value.NaN? || AsFloat(py, v).value.AtMost(AsFloat(py, w).value))
  }

  /** What a rule guarantees to those who read the topic. */
  ghost predicate RuleHolds(py: Texts, p: Payload, r: Rule) {
    && (r.name in {"positive_price", "positive_quantity"} ==>
          |r.fields| >= 1 && PositiveOrNaN(py, Get(p, r.fields[0])))
    && (r.name == "bid_lte_ask" ==>
          |r.fields| >= 2 && OrderedOrNaN(py, Get(p, r.fields[0]), Get(p, r.fields[1])))
    && (r.name == "non_negative_any" && HasAny(p, r.fields) ==>
          exists k :: 0 <= k < |r.fields| && FirstNonNegative(py, p, r.fields, k))
  }

  /** Field k is at least zero or NaN, and the filled fields before it are negative numbers. */
  ghost predicate FirstNonNegative(py: Texts, p: Payload, fields: seq<string>, k: nat)
    requires k < |fields|
  {
    && !Blank(Get(p, fields[k])) && AsFloat(py, Get(p, fields[k])).Some?
    && (AsFloat(py, Get(p, fields[k])).value.NaN? || ZERO.AtMost(AsFloat(py, Get(p, fields[k])).value))
    && forall i | 0 <= i < k && !Blank(Get(p, fields[i])) :: NegativeNumber(py, Get(p, fields[i]))
  }

  predicate NegativeNumber(py: Texts, v: Value) {
    AsFloat(py, v).Some? && AsFloat(py, v).value.Below(ZERO)
  }

  lemma {:induction false} NotAllNegative(py: Texts, p: Payload, fields: seq<string>)
    ensures AllNegative(py, p, fields) == Some(false)
            <==> exists k :: 0 <= k < |fields| && FirstNonNegative(py, p, fields, k)
  {
    if fields != [] {
      var rest := fields[1..];
      NotAllNegative(py, p, rest);
      if AllNegative(py, p, fields) == Some(false) {
        if Blank(Get(p, fields[0])) || AsFloat(py, Get(p, fields[0])).value.Below(ZERO) {
          var k :| 0 <= k < |rest| && FirstNonNegative(py, p, rest, k);
          assert FirstNonNegative(py, p, fields, k + 1);
        } else {
          assert FirstNonNegative(py, p, fields, 0);
        }
      }
      if k :| 0 <= k < |fields| && FirstNonNegative(py, p, fields, k) {
        if k > 0 {
          assert FirstNonNegative(py, p, rest, k - 1) by {
            assert forall i | 0 <= i < k - 1 :: rest[i] == fields[i + 1];
          }
        }
      }
    }
  }

  lemma {:induction false} AllBlank(py: Texts, p: Payload, fields: seq<string>)
    requires !HasAny(p, fields)
    ensures AllNegative(py, p, fields) == Some(true)
  {
    if fields != [] {
      assert forall i | 0 <= i < |fields[1..]| :: fields[1..][i] == fields[i + 1];
      assert Blank(Get(p, fields[0]));
      AllBlank(py, p, fields[1..]);
    }
  }

  lemma RuleAccepts(py: Texts, p: Payload, r: Rule)
    ensures ApplyRule(py, p, r).Accepted? <==> RuleHolds(py, p, r)
  {
    hide FirstNonNegative, AsFloat;
    if r.name == "non_negative_any" {
      NotAllNegative(py, p, r.fields);
      if !HasAny(p, r.fields) {
        AllBlank(py, p, r.fields);
      }
    }
  }

  lemma {:induction false} RulesAccept(py: Texts, p: Payload, rules: seq<Rule>)
    ensures ApplyRules(py, p, rules).Accepted? <==> forall r | r in rules :: RuleHolds(py, p, r)
  {
    hide ApplyRule, RuleHolds;
    if rules != [] {
      RuleAccepts(py, p, rules[0]);
      RulesAccept(py, p, rules[1..]);
      assert rules == [rules[0]] + rules[1..];
    }
  }

  /** The event time that is found, if any, is not too far ahead, and is there if it must be. */
  predicate EventTimeHolds(py: Texts, c: Contract, p: Payload, ts: int) {
    match InferTime(py, p, c.TimeKeys())
    case TimeRaises => false
    case NoTime => !c.requireTime
    case Time(t) => t <= ts + 60_000
  }

  /** The requirements on the fields, as a statement about the payload. */
  ghost predicate FieldsPass(py: Texts, c: Contract, p: Payload, ts: int) {
    && (forall k | k in c.timeFields :: TimeReadable(py, Get(p, k)))
    && EventTimeHolds(py, c, p, ts)
    && (forall f | f in c.required :: FieldHolds(py, p, f, true))
    && (forall names | names in c.requiredAny :: HasAny(p, names))
    && (forall f | f in c.fieldTypes :: FieldHolds(py, p, f, false))
    && (forall f | f in c.optional :: FieldHolds(py, p, f, false))
  }

  lemma FieldsPassExactly(py: Texts, c: Contract, p: Payload, ts: int)
    ensures CheckFields(py, c, p, ts).Accepted? <==> FieldsPass(py, c, p, ts)
  {
    hide FieldHolds, HasAny, CheckEach, CheckTimes, CheckAny, InferTime, TimeReadable, Contract.TimeKeys;
    TimesAccepted(py, p, c.timeFields);
    EachAccepted(py, p, c.required, true);
    AnyAccepted(p, c.requiredAny);
    EachAccepted(py, p, c.fieldTypes, false);
    EachAccepted(py, p, c.optional, false);
  }

  /** An event is accepted exactly when every requirement and every rule of its contract holds. */
  lemma AcceptedExactly(py: Texts, c: Contract, p: Payload, ts: int)
    ensures Validate(py, c, p, ts).Accepted?
            <==> FieldsPass(py, c, p, ts) && forall r | r in c.rules :: RuleHolds(py, p, r)
  {
    hide FieldsPass, RuleHolds, CheckFields, ApplyRules;
    FieldsPassExactly(py, c, p, ts);
    RulesAccept(py, p, c.rules);
  }

  // ------------------------------------------------------------------ what a rejection means

  /** The filled fields are numbers, all negative, and there is one. */
  ghost predicate AllFilledNegative(py: Texts, p: Payload, fields: seq<string>) {
    && HasAny(p, fields)
    && forall i | 0 <= i < |fields| && !Blank(Get(p, fields[i])) :: NegativeNumber(py, Get(p, fields[i]))
  }

  /** The reason names something that is wrong with the payload. */
  ghost predicate Justified(py: Texts, c: Contract, p: Payload, ts: int, reason: Reason) {
    var time := InferTime(py, p, c.TimeKeys());
    match reason
    case BadTime => exists k :: k in c.timeFields && !Blank(Get(p, k)) && TimeMs(py, Get(p, k)).NoTime?
    case TimeMissing => c.requireTime && time.NoTime?
    case TimeAhead => time.Time? && time.ms > ts + MAX_FUTURE_EVENT_MS
    case FieldMissing(key) => Blank(Get(p, key)) && exists f :: f in c.required && f.key == key
    case FieldInvalid(key) =>
      exists f :: f in c.required + c.fieldTypes + c.optional && f.key == key
                  && HasType(py, Get(p, key), f.expected) == Some(false)
    case AnyMissing => exists keys :: keys in c.requiredAny && !HasAny(p, keys)
    case NonPositive(key) => AsFloat(py, Get(p, key)).Some? && AsFloat(py, Get(p, key)).value.AtMost(ZERO)
    case Crossed => exists r :: r in c.rules && RuleCrossed(py, p, r)
    case Negative => exists r :: r in c.rules && AllFilledNegative(py, p, r.fields)
  }

  ghost predicate RuleCrossed(py: Texts, p: Payload, r: Rule) {
    && r.name == "bid_lte_ask" && |r.fields| >= 2
    && AsFloat(py, Get(p, r.fields[0])).Some? && AsFloat(py, Get(p, r.fields[1])).Some?
    && AsFloat(py, Get(p, r.fields[1])).value.Below(AsFloat(py, Get(p, r.fields[0])).value)
  }

  lemma {:induction false} TimesRejected(py: Texts, p: Payload, keys: seq<string>)
    requires CheckTimes(py, p, keys).Rejected?
    ensures CheckTimes(py, p, keys) == Rejected(BadTime)
    ensures exists k :: k in keys && !Blank(Get(p, k)) && TimeMs(py, Get(p, k)).NoTime?
  {
    hide TimeMs, Blank;
    assert keys[0] in keys;
    if CheckTime(py, Get(p, keys[0])).Accepted? {
      TimesRejected(py, p, keys[1..]);
    }
  }

  lemma {:induction false} EachRejected(py: Texts, p: Payload, fields: seq<Field>, mustExist: bool) returns (f: Field)
    requires CheckEach(py, p, fields, mustExist).Rejected?
    ensures f in fields && CheckField(py, p, f, mustExist) == CheckEach(py, p, fields, mustExist)
  {
    hide CheckField;
    if CheckField(py, p, fields[0], mustExist).Accepted? {
      f := EachRejected(py, p, fields[1..], mustExist);
    } else {
      f := fields[0];
    }
  }

  lemma {:induction false} AnyRejected(p: Payload, groups: seq<seq<string>>)
    requires CheckAny(p, groups).Rejected?
    ensures CheckAny(p, groups) == Rejected(AnyMissing) && exists names :: names in groups && !HasAny(p, names)
  {
    hide HasAny;
    assert groups[0] in groups;
    if HasAny(p, groups[0]) {
      AnyRejected(p, groups[1..]);
    }
  }

  lemma {:induction false} AllNegativeIsReal(py: Texts, p: Payload, fields: seq<string>)
    requires AllNegative(py, p, fields) == Some(true)
    ensures forall i | 0 <= i < |fields| && !Blank(Get(p, fields[i])) :: NegativeNumber(py, Get(p, fields[i]))
  {
    hide AsFloat, Blank;
    if fields != [] {
      AllNegativeIsReal(py, p, fields[1..]);
      assert forall i | 1 <= i < |fields| :: fields[i] == fields[1..][i - 1];
    }
  }

  lemma {:induction false} RejectingRule(py: Texts, p: Payload, rules: seq<Rule>) returns (r: Rule)
    requires ApplyRules(py, p, rules).Rejected?
    ensures r in rules && ApplyRule(py, p, r) == ApplyRules(py, p, rules)
  {
    hide ApplyRule;
    if ApplyRule(py, p, rules[0]).Accepted? {
      r := RejectingRule(py, p, rules[1..]);
    } else {
      r := rules[0];
    }
  }

  /** Every rejection names a requirement or a rule that the payload breaks. */
  lemma RejectionIsReal(py: Texts, c: Contract, p: Payload, ts: int)
    requires Validate(py, c, p, ts).Rejected?
    ensures Justified(py, c, p, ts, Validate(py, c, p, ts).reason)
  {
    hide HasType, Blank, InferTime, TimeMs, HasAny, AsFloat, Contract.TimeKeys, CheckFields;
    if CheckFields(py, c, p, ts).Accepted? {
      var r := RejectingRule(py, p, c.rules);
      if r.name == "non_negative_any" {
        AllNegativeIsReal(py, p, r.fields);
        assert AllFilledNegative(py, p, r.fields);
      }
    } else {
      FieldsRejected(py, c, p, ts);
    }
  }

  lemma FieldsRejected(py: Texts, c: Contract, p: Payload, ts: int)
    requires CheckFields(py, c, p, ts).Rejected?
    ensures Justified(py, c, p, ts, CheckFields(py, c, p, ts).reason)
  {
    hide HasType, Blank, InferTime, TimeMs, HasAny, AsFloat, CheckTimes, CheckEach, CheckAny, Contract.TimeKeys,
         RuleCrossed, AllFilledNegative;
    if CheckTimes(py, p, c.timeFields).Rejected? {
      TimesRejected(py, p, c.timeFields);
    }
    if CheckAny(p, c.requiredAny).Rejected? {
      AnyRejected(p, c.requiredAny);
    }
    if CheckEach(py, p, c.required, true).Rejected? {
      var f := EachRejected(py, p, c.required, true);
    }
    if CheckEach(py, p, c.fieldTypes, false).Rejected? {
      var f := EachRejected(py, p, c.fieldTypes, false);
    }
    if CheckEach(py, p, c.optional, false).Rejected? {
      var f := EachRejected(py, p, c.optional, false);
    }
  }
}
