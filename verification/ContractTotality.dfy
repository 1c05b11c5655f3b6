/**
  When validation against a contract ends in an exception instead of a verdict.  Three conversions are
  not guarded: reading a value as a time, `float()` and `int()` of a number out of range in a type
  check, and the `float()` of the quality rules.
*/
module ContractTotality {
  import opened PyText
  import opened ContractValidation

  // ------------------------------------------------------------------ what a contract vouches for

  /** Some part of the contract makes the field a number when it is filled. */
  predicate Numeric(c: Contract, key: string) {
    exists f :: f in c.required + c.fieldTypes + c.optional && f.key == key && f.expected in {Number, Integer}
  }

  predicate Beyond(names: seq<string>, keys: set<string>) {
    exists k :: 0 <= k < |names| && names[k] !in keys
  }

  /** A payload without any of these fields can still satisfy the field requirements. */
  predicate CanLack(c: Contract, keys: set<string>) {
    && (forall f | f in c.required :: f.key !in keys)
    && (forall names | names in c.requiredAny :: Beyond(names, keys))
    && (c.requireTime ==> Beyond(c.TimeKeys(), keys))
  }

  /** Filled with a number in every payload that passes the field requirements. */
  predicate Sure(c: Contract, key: string) {
    Numeric(c, key) && !CanLack(c, {key})
  }

  predicate RuleGuarded(c: Contract, r: Rule) {
    && (r.name in {"positive_price", "positive_quantity"} ==> |r.fields| >= 1 && Sure(c, r.fields[0]))
    && (r.name == "bid_lte_ask" ==> |r.fields| >= 2 && Sure(c, r.fields[0]) && Sure(c, r.fields[1]))
    && (r.name == "non_negative_any" ==> forall k | 0 <= k < |r.fields| :: Numeric(c, r.fields[k]))
  }

  /** Every rule has its fields, and the contract vouches for them. */
  predicate Guarded(c: Contract) {
    forall r | r in c.rules :: RuleGuarded(c, r)
  }

  // ------------------------------------------------------------------ the rules of guarded contracts

  lemma NumericConverts(py: Texts, c: Contract, p: Payload, ts: int, key: string)
    requires py.Consistent() && FieldsPass(py, c, p, ts) && Numeric(c, key) && !Blank(Get(p, key))
    ensures AsFloat(py, Get(p, key)).Some? <==> !Oversize(py, Get(p, key))
  {
    hide EventTimeHolds, TimeReadable, TimeMs, HasAny, Contract.TimeKeys;
    var f :| f in c.required + c.fieldTypes + c.optional && f.key == key && f.expected in {Number, Integer};
    assert FieldHolds(py, p, f, f in c.required) || FieldHolds(py, p, f, false);
    assert HasType(py, Get(p, key), f.expected) == Some(true);
  }

  lemma {:induction false} TimeFromKey(py: Texts, p: Payload, keys: seq<string>)
    requires InferTime(py, p, keys).Time?
    ensures exists k :: 0 <= k < |keys| && TimeMs(py, Get(p, keys[k])) == InferTime(py, p, keys)
  {
    hide TimeMs;
    if TimeMs(py, Get(p, keys[0])).NoTime? {
      TimeFromKey(py, p, keys[1..]);
      var k :| 0 <= k < |keys[1..]| && TimeMs(py, Get(p, keys[1..][k])) == InferTime(py, p, keys[1..]);
      assert keys[k + 1] == keys[1..][k];
    }
  }

  lemma BlankIsNoTime(py: Texts, v: Value)
    ensures Blank(v) ==> TimeMs(py, v).NoTime?
  {
  }

  /** A payload that passes the field requirements lacks no field that it cannot lack. */
  lemma CannotLack(py: Texts, c: Contract, p: Payload, ts: int, key: string)
    requires FieldsPass(py, c, p, ts) && !CanLack(c, {key})
    ensures !Blank(Get(p, key))
  {
    hide TimeMs, HasType, InferTime, TimeReadable, Contract.TimeKeys;
    if f :| f in c.required && f.key == key {
      assert FieldHolds(py, p, f, true);
    } else if names :| names in c.requiredAny && !Beyond(names, {key}) {
      assert HasAny(p, names);
    } else {
      assert c.requireTime && !Beyond(c.TimeKeys(), {key});
      TimeFromKey(py, p, c.TimeKeys());
      var k :| 0 <= k < |c.TimeKeys()| && TimeMs(py, Get(p, c.TimeKeys()[k])) == InferTime(py, p, c.TimeKeys());
      assert c.TimeKeys()[k] == key;
      BlankIsNoTime(py, Get(p, key));
    }
  }

  /** A rule that converts fields: how many of them it needs. */
  function Needed(r: Rule): nat {
    if r.name in {"positive_price", "positive_quantity"} then 1 else if r.name == "bid_lte_ask" then 2 else 0
  }

  /** The rule lacks a field that it needs, or a conversion that it reaches raises. */
  ghost predicate RuleRaises(py: Texts, p: Payload, r: Rule) {
    || |r.fields| < Needed(r)
    || (exists k :: 0 <= k < Needed(r) && AsFloat(py, Get(p, r.fields[k])).None?)
    || (r.name == "non_negative_any" && exists k :: 0 <= k < |r.fields| && FirstUnread(py, p, r.fields, k))
  }

  /** Field k is filled and does not convert, and the filled fields before it are negative numbers. */
  ghost predicate FirstUnread(py: Texts, p: Payload, fields: seq<string>, k: nat)
    requires k < |fields|
  {
    && !Blank(Get(p, fields[k])) && AsFloat(py, Get(p, fields[k])).None?
    && forall i | 0 <= i < k && !Blank(Get(p, fields[i])) :: NegativeNumber(py, Get(p, fields[i]))
  }

  lemma {:induction false} AllNegativeRaises(py: Texts, p: Payload, fields: seq<string>)
    ensures AllNegative(py, p, fields).None? <==> exists k :: 0 <= k < |fields| && FirstUnread(py, p, fields, k)
  {
    hide AsFloat, Blank, Double.Below;
    if fields != [] {
      var rest := fields[1..];
      AllNegativeRaises(py, p, rest);
      if AllNegative(py, p, fields).None? {
        if Blank(Get(p, fields[0])) || AsFloat(py, Get(p, fields[0])).Some? {
          var k :| 0 <= k < |rest| && FirstUnread(py, p, rest, k);
          assert FirstUnread(py, p, fields, k + 1);
        } else {
          assert FirstUnread(py, p, fields, 0);
        }
      }
      if k :| 0 <= k < |fields| && FirstUnread(py, p, fields, k) {
        if k > 0 {
          assert forall i | 0 <= i < k - 1 :: rest[i] == fields[i + 1];
          assert FirstUnread(py, p, rest, k - 1);
        }
      }
    }
  }

  lemma RuleRaisesExactly(py: Texts, p: Payload, r: Rule)
    ensures ApplyRule(py, p, r).Raises? <==> RuleRaises(py, p, r)
  {
    hide AsFloat, FirstUnread, HasAny, AllNegative, Double.Below, Double.AtMost;
    AllNegativeRaises(py, p, r.fields);
  }

  /** Some field that the rule converts holds an integer beyond the range of `float`. */
  ghost predicate RuleOversize(py: Texts, p: Payload, r: Rule) {
    || (exists k :: 0 <= k < Needed(r) <= |r.fields| && Oversize(py, Get(p, r.fields[k])))
    || (r.name == "non_negative_any"
        && exists k :: 0 <= k < |r.fields| && Oversize(py, Get(p, r.fields[k])) && FirstUnread(py, p, r.fields, k))
  }

  /** A guarded rule that is reached raises on nothing but such an integer. */
  lemma GuardedRuleRaises(py: Texts, c: Contract, p: Payload, ts: int, r: Rule)
    requires py.Consistent() && FieldsPass(py, c, p, ts) && RuleGuarded(c, r)
    ensures RuleRaises(py, p, r) <==> RuleOversize(py, p, r)
  {
    hide FieldsPass, AsFloat, Numeric, CanLack, Blank, Get, Oversize;
    forall k | 0 <= k < Needed(r)
      ensures k < |r.fields| && (AsFloat(py, Get(p, r.fields[k])).None? <==> Oversize(py, Get(p, r.fields[k])))
    {
      CannotLack(py, c, p, ts, r.fields[k]);
      NumericConverts(py, c, p, ts, r.fields[k]);
    }
    if r.name == "non_negative_any" {
      forall k | 0 <= k < |r.fields| && FirstUnread(py, p, r.fields, k) ensures Oversize(py, Get(p, r.fields[k])) {
        NumericConverts(py, c, p, ts, r.fields[k]);
      }
    }
  }

  // ------------------------------------------------------------------ the checks one by one

  /** The checks in the order in which they are made. */
  datatype Check = ReadableTime(key: string) | EventTime | Required(f: Field) | AnyOf(names: seq<string>)
      | Typed(f: Field) | Quality(r: Rule)

  function TimeChecks(keys: seq<string>): seq<Check> {
    if keys == [] then [] else [ReadableTime(keys[0])] + TimeChecks(keys[1..])
  }

  function FieldChecks(fields: seq<Field>, mustExist: bool): seq<Check> {
    if fields == [] then []
    else [if mustExist then Required(fields[0]) else Typed(fields[0])] + FieldChecks(fields[1..], mustExist)
  }

  function AnyChecks(groups: seq<seq<string>>): seq<Check> {
    if groups == [] then [] else [AnyOf(groups[0])] + AnyChecks(groups[1..])
  }

  function RuleChecks(rules: seq<Rule>): seq<Check> {
    if rules == [] then [] else [Quality(rules[0])] + RuleChecks(rules[1..])
  }

  function Checks(c: Contract): seq<Check> {
    FieldPart(c) + RuleChecks(c.rules)
  }

  /** The checks before the quality rules. */
  function FieldPart(c: Contract): seq<Check> {
    TimeChecks(c.timeFields)
    + ([EventTime]
       + (FieldChecks(c.required, true)
          + (AnyChecks(c.requiredAny) + (FieldChecks(c.fieldTypes, false) + FieldChecks(c.optional, false)))))
  }

  ghost predicate Passes(py: Texts, c: Contract, p: Payload, ts: int, check: Check) {
    match check
    case ReadableTime(key) => TimeReadable(py, Get(p, key))
    case EventTime => EventTimeHolds(py, c, p, ts)
    case Required(f) => FieldHolds(py, p, f, true)
    case AnyOf(names) => HasAny(p, names)
    case Typed(f) => FieldHolds(py, p, f, false)
    case Quality(r) => RuleHolds(py, p, r)
  }

  /** A conversion of the value to the type raises: a time that is no finite number or a text that cannot
      be read, an integer too large for a double, or an infinity as an integer. */
  predicate TypeRaises(py: Texts, v: Value, expected: FieldType) {
    match expected
    case Number => Oversize(py, v)
    case Integer => Unbounded(v)
    case Timestamp => TimeMs(py, v).TimeRaises?
    case Unchecked => false
  }

  /** The check makes a conversion that raises. */
  ghost predicate CheckRaises(py: Texts, c: Contract, p: Payload, check: Check) {
    match check
    case ReadableTime(key) => TimeMs(py, Get(p, key)).TimeRaises?
    case EventTime => exists k :: 0 <= k < |c.TimeKeys()| && FirstReadRaises(py, p, c.TimeKeys(), k)
    case Required(f) => TypeRaises(py, Get(p, f.key), f.expected)
    case AnyOf(_) => false
    case Typed(f) => TypeRaises(py, Get(p, f.key), f.expected)
    case Quality(r) => RuleRaises(py, p, r)
  }

  predicate FirstReadRaises(py: Texts, p: Payload, keys: seq<string>, k: nat)
    requires k < |keys|
  {
    && TimeMs(py, Get(p, keys[k])).TimeRaises?
    && forall j | 0 <= j < k :: TimeMs(py, Get(p, keys[j])).NoTime?
  }

  lemma {:induction false} InferRaises(py: Texts, p: Payload, keys: seq<string>)
    ensures InferTime(py, p, keys).TimeRaises? <==> exists k :: 0 <= k < |keys| && FirstReadRaises(py, p, keys, k)
  {
    hide TimeMs;
    if keys != [] {
      var rest := keys[1..];
      InferRaises(py, p, rest);
      if InferTime(py, p, keys).TimeRaises? {
        if TimeMs(py, Get(p, keys[0])).NoTime? {
          var k :| 0 <= k < |rest| && FirstReadRaises(py, p, rest, k);
          assert FirstReadRaises(py, p, keys, k + 1);
        } else {
          assert FirstReadRaises(py, p, keys, 0);
        }
      }
      if k :| 0 <= k < |keys| && FirstReadRaises(py, p, keys, k) {
        if k > 0 {
          assert forall j | 0 <= j < k - 1 :: rest[j] == keys[j + 1];
          assert FirstReadRaises(py, p, rest, k - 1);
        }
      }
    }
  }

  function Outcome(py: Texts, c: Contract, p: Payload, ts: int, check: Check): Verdict {
    match check
    case ReadableTime(key) => CheckTime(py, Get(p, key))
    case EventTime => CheckEventTime(py, c, p, ts)
    case Required(f) => CheckField(py, p, f, true)
    case AnyOf(names) => if HasAny(p, names) then Accepted else Rejected(AnyMissing)
    case Typed(f) => CheckField(py, p, f, false)
    case Quality(r) => ApplyRule(py, p, r)
  }

  lemma OutcomeMeaning(py: Texts, c: Contract, p: Payload, ts: int, check: Check)
    ensures Outcome(py, c, p, ts, check).Accepted? <==> Passes(py, c, p, ts, check)
    ensures Outcome(py, c, p, ts, check).Raises? <==> CheckRaises(py, c, p, check)
  {
    hide TimeMs, InferTime, HasAny, NumberLike, IntLike, FirstReadRaises, Contract.TimeKeys, ApplyRule, RuleHolds,
        RuleRaises;
    match check {
      case ReadableTime(key) => BlankIsNoTime(py, Get(p, key));
      case EventTime => InferRaises(py, p, c.TimeKeys());
      case Required(f) => BlankIsNoTime(py, Get(p, f.key));
      case AnyOf(names) =>
      case Typed(f) => BlankIsNoTime(py, Get(p, f.key));
      case Quality(r) =>
        RuleAccepts(py, p, r);
        RuleRaisesExactly(py, p, r);
    }
  }

  /** The outcome of the first check that does not pass. */
  function FirstStop(py: Texts, c: Contract, p: Payload, ts: int, checks: seq<Check>): Verdict {
    if checks == [] then Accepted else Then(Outcome(py, c, p, ts, checks[0]), FirstStop(py, c, p, ts, checks[1..]))
  }

  lemma {:induction false} StopAppend(py: Texts, c: Contract, p: Payload, ts: int, a: seq<Check>, b: seq<Check>)
    ensures FirstStop(py, c, p, ts, a + b) == Then(FirstStop(py, c, p, ts, a), FirstStop(py, c, p, ts, b))
    decreases |a|
  {
    hide Outcome;
    if a == [] {
      assert a + b == b;
    } else {
      assert (a + b)[1..] == a[1..] + b;
      StopAppend(py, c, p, ts, a[1..], b);
    }
  }

  lemma {:induction false} TimesStop(py: Texts, c: Contract, p: Payload, ts: int, keys: seq<string>)
    ensures FirstStop(py, c, p, ts, TimeChecks(keys)) == CheckTimes(py, p, keys)
    decreases |keys|
  {
    hide CheckTime;
    if keys != [] {
      TimesStop(py, c, p, ts, keys[1..]);
      assert TimeChecks(keys)[1..] == TimeChecks(keys[1..]);
    }
  }

  lemma {:induction false} FieldsStop(py: Texts, c: Contract, p: Payload, ts: int, fields: seq<Field>, mustExist: bool)
    ensures FirstStop(py, c, p, ts, FieldChecks(fields, mustExist)) == CheckEach(py, p, fields, mustExist)
    decreases |fields|
  {
    hide CheckField;
    if fields != [] {
      FieldsStop(py, c, p, ts, fields[1..], mustExist);
      assert FieldChecks(fields, mustExist)[1..] == FieldChecks(fields[1..], mustExist);
    }
  }

  lemma {:induction false} AnyStop(py: Texts, c: Contract, p: Payload, ts: int, groups: seq<seq<string>>)
    ensures FirstStop(py, c, p, ts, AnyChecks(groups)) == CheckAny(p, groups)
    decreases |groups|
  {
    hide HasAny;
    if groups != [] {
      AnyStop(py, c, p, ts, groups[1..]);
      assert AnyChecks(groups)[1..] == AnyChecks(groups[1..]);
    }
  }

  lemma {:induction false} RulesStop(py: Texts, c: Contract, p: Payload, ts: int, rules: seq<Rule>)
    ensures FirstStop(py, c, p, ts, RuleChecks(rules)) == ApplyRules(py, p, rules)
    decreases |rules|
  {
    hide ApplyRule;
    if rules != [] {
      RulesStop(py, c, p, ts, rules[1..]);
      assert RuleChecks(rules)[1..] == RuleChecks(rules[1..]);
    }
  }

  lemma ChecksStop(py: Texts, c: Contract, p: Payload, ts: int)
    ensures FirstStop(py, c, p, ts, Checks(c)) == Validate(py, c, p, ts)
  {
    hide FirstStop, FieldPart, RuleChecks, CheckFields, ApplyRules;
    StopAppend(py, c, p, ts, FieldPart(c), RuleChecks(c.rules));
    FieldPartStop(py, c, p, ts);
    RulesStop(py, c, p, ts, c.rules);
  }

  lemma {:induction false} FieldPartStop(py: Texts, c: Contract, p: Payload, ts: int)
    ensures FirstStop(py, c, p, ts, FieldPart(c)) == CheckFields(py, c, p, ts)
  {
    var times, required, any := TimeChecks(c.timeFields), FieldChecks(c.required, true), AnyChecks(c.requiredAny);
    var types, optional := FieldChecks(c.fieldTypes, false), FieldChecks(c.optional, false);
    assert FirstStop(py, c, p, ts, [EventTime]) == CheckEventTime(py, c, p, ts) by {
      assert [EventTime][1..] == [];
    }
    hide FirstStop, TimeChecks, FieldChecks, AnyChecks, CheckTimes, CheckEach, CheckAny, CheckEventTime;
    StopAppend(py, c, p, ts, times, [EventTime] + (required + (any + (types + optional))));
    StopAppend(py, c, p, ts, [EventTime], required + (any + (types + optional)));
    StopAppend(py, c, p, ts, required, any + (types + optional));
    StopAppend(py, c, p, ts, any, types + optional);
    StopAppend(py, c, p, ts, types, optional);
    TimesStop(py, c, p, ts, c.timeFields);
    FieldsStop(py, c, p, ts, c.required, true);
    AnyStop(py, c, p, ts, c.requiredAny);
    FieldsStop(py, c, p, ts, c.fieldTypes, false);
    FieldsStop(py, c, p, ts, c.optional, false);
  }

  /** Check k raises and the checks before it pass. */
  ghost predicate RaisesAt(py: Texts, c: Contract, p: Payload, ts: int, checks: seq<Check>, k: nat) {
    && k < |checks| && CheckRaises(py, c, p, checks[k])
    && forall j | 0 <= j < k :: Passes(py, c, p, ts, checks[j])
  }

  lemma {:induction false} StopRaises(py: Texts, c: Contract, p: Payload, ts: int, checks: seq<Check>)
    ensures FirstStop(py, c, p, ts, checks).Raises? <==> exists k: nat :: RaisesAt(py, c, p, ts, checks, k)
    decreases |checks|
  {
    hide Outcome, Passes, CheckRaises;
    if checks != [] {
      var rest := checks[1..];
      StopRaises(py, c, p, ts, rest);
      OutcomeMeaning(py, c, p, ts, checks[0]);
      if FirstStop(py, c, p, ts, checks).Raises? {
        if Passes(py, c, p, ts, checks[0]) {
          var k: nat :| RaisesAt(py, c, p, ts, rest, k);
          assert RaisesAt(py, c, p, ts, checks, k + 1);
        } else {
          assert RaisesAt(py, c, p, ts, checks, 0);
        }
      }
      if k: nat :| RaisesAt(py, c, p, ts, checks, k) {
        if k > 0 {
          assert forall j | 0 <= j < k - 1 :: rest[j] == checks[j + 1];
          assert RaisesAt(py, c, p, ts, rest, k - 1);
        }
      }
    }
  }

  /** On every contract validation raises exactly when some check makes a conversion that raises, or a
      rule lacks its fields, and every check before it passes. */
  lemma RaisesExactly(py: Texts, c: Contract, p: Payload, ts: int)
    ensures Validate(py, c, p, ts).Raises? <==> exists k: nat :: RaisesAt(py, c, p, ts, Checks(c), k)
  {
    hide Validate, RaisesAt, Checks, FirstStop;
    ChecksStop(py, c, p, ts);
    StopRaises(py, c, p, ts, Checks(c));
  }

  /** What can make a check of a guarded contract raise: only the value of a field, never its absence. */
  ghost predicate ValueRaises(py: Texts, c: Contract, p: Payload, check: Check) {
    if check.Quality? then RuleOversize(py, p, check.r) else CheckRaises(py, c, p, check)
  }

  ghost predicate ValueRaisesAt(py: Texts, c: Contract, p: Payload, ts: int, checks: seq<Check>, k: nat) {
    && k < |checks| && ValueRaises(py, c, p, checks[k])
    && forall j | 0 <= j < k :: Passes(py, c, p, ts, checks[j])
  }

  lemma {:induction false} RuleCheckAt(rules: seq<Rule>, k: nat)
    requires k < |RuleChecks(rules)|
    ensures k < |rules| && RuleChecks(rules)[k] == Quality(rules[k])
  {
    if k > 0 {
      RuleCheckAt(rules[1..], k - 1);
    }
  }

  lemma {:induction false} NoRuleInTimes(keys: seq<string>)
    ensures forall check | check in TimeChecks(keys) :: !check.Quality?
  {
    if keys != [] {
      NoRuleInTimes(keys[1..]);
    }
  }

  lemma {:induction false} NoRuleInFields(fields: seq<Field>, mustExist: bool)
    ensures forall check | check in FieldChecks(fields, mustExist) :: !check.Quality?
  {
    if fields != [] {
      NoRuleInFields(fields[1..], mustExist);
    }
  }

  lemma {:induction false} NoRuleInAny(groups: seq<seq<string>>)
    ensures forall check | check in AnyChecks(groups) :: !check.Quality?
  {
    if groups != [] {
      NoRuleInAny(groups[1..]);
    }
  }

  lemma NoRuleInFieldPart(c: Contract)
    ensures forall check | check in FieldPart(c) :: !check.Quality?
  {
    hide TimeChecks, FieldChecks, AnyChecks;
    NoRuleInTimes(c.timeFields);
    NoRuleInFields(c.required, true);
    NoRuleInAny(c.requiredAny);
    NoRuleInFields(c.fieldTypes, false);
    NoRuleInFields(c.optional, false);
  }

  lemma {:induction false} AllPass(py: Texts, c: Contract, p: Payload, ts: int, checks: seq<Check>)
    requires forall j | 0 <= j < |checks| :: Passes(py, c, p, ts, checks[j])
    ensures FirstStop(py, c, p, ts, checks).Accepted?
    decreases |checks|
  {
    hide Outcome, Passes;
    if checks != [] {
      assert forall j | 0 <= j < |checks[1..]| :: checks[1..][j] == checks[j + 1];
      OutcomeMeaning(py, c, p, ts, checks[0]);
      AllPass(py, c, p, ts, checks[1..]);
    }
  }

  /** Where the rules are reached, the field requirements hold. */
  lemma RuleReached(py: Texts, c: Contract, p: Payload, ts: int, k: nat)
    requires k < |Checks(c)| && Checks(c)[k].Quality?
    requires forall j | 0 <= j < k :: Passes(py, c, p, ts, Checks(c)[j])
    ensures Checks(c)[k].r in c.rules && FieldsPass(py, c, p, ts)
  {
    hide FieldPart, RuleChecks, Passes, FieldsPass, CheckFields, FirstStop;
    var fields := FieldPart(c);
    NoRuleInFieldPart(c);
    assert Checks(c) == fields + RuleChecks(c.rules);
    assert Checks(c)[..|fields|] == fields;
    assert forall j | 0 <= j < |fields| :: !Checks(c)[j].Quality?;
    RuleCheckAt(c.rules, k - |fields|);
    assert forall j | 0 <= j < |fields| :: fields[j] == Checks(c)[j];
    AllPass(py, c, p, ts, fields);
    FieldPartStop(py, c, p, ts);
    FieldsPassExactly(py, c, p, ts);
  }

  /** On a guarded contract validation raises exactly when some check reads a value as a time and that
      raises, or converts a number that is out of range, and every check before it passes. */
  lemma GuardedRaisesExactly(py: Texts, c: Contract, p: Payload, ts: int)
    requires py.Consistent() && Guarded(c)
    ensures Validate(py, c, p, ts).Raises? <==> exists k: nat :: ValueRaisesAt(py, c, p, ts, Checks(c), k)
  {
    hide FieldsPass, RuleGuarded, Validate, Checks, Passes, RuleRaises, RuleOversize, TypeRaises, TimeMs,
        FirstReadRaises, Contract.TimeKeys;
    RaisesExactly(py, c, p, ts);
    forall k: nat ensures RaisesAt(py, c, p, ts, Checks(c), k) <==> ValueRaisesAt(py, c, p, ts, Checks(c), k) {
      if k < |Checks(c)| && Checks(c)[k].Quality? && forall j | 0 <= j < k :: Passes(py, c, p, ts, Checks(c)[j]) {
        RuleReached(py, c, p, ts, k);
        GuardedRuleRaises(py, c, p, ts, Checks(c)[k].r);
      }
    }
  }

  /** Neither a time whose reading raises, as a number that is not finite does, nor an integer that
      `float` does not take. */
  predicate Clean(py: Texts, v: Value) {
    !TimeMs(py, v).TimeRaises? && !Oversize(py, v)
  }

  /** So on a guarded contract a payload of such values gets a verdict. */
  lemma GuardedIsTotal(py: Texts, c: Contract, p: Payload, ts: int)
    requires py.Consistent() && Guarded(c)
    requires forall n | n in p :: Clean(py, p[n])
    ensures !Validate(py, c, p, ts).Raises?
  {
    GuardedRaisesExactly(py, c, p, ts);
    assert Clean(py, NoneValue);
    hide Guarded, Validate, Checks, Clean, Passes, CheckRaises;
    assert forall n :: Clean(py, Get(p, n));
    forall check ensures !ValueRaises(py, c, p, check) {
      if check.Quality? {
        forall n ensures !Oversize(py, Get(p, n)) {
          CleanConverts(py, Get(p, n), Number);
        }
      } else {
        CleanNeverRaises(py, c, p, check);
      }
    }
  }

  lemma CleanConverts(py: Texts, v: Value, expected: FieldType)
    requires Clean(py, v)
    ensures !TypeRaises(py, v, expected) && !TimeMs(py, v).TimeRaises?
  {
  }

  // ------------------------------------------------------------------ values that raise

  /** Python reads every text as a time or as no time. */
  ghost predicate ReadsEveryTime(py: Texts) {
    forall text :: !TimeMs(py, Str(text)).TimeRaises?
  }

  /** A number that fits a double, or no number. */
  predicate InRange(py: Texts, v: Value) {
    !Oversize(py, v) && (v.Float? ==> v.x.Finite?)
  }

  predicate AllInRange(py: Texts, p: Payload) {
    forall n | n in p :: InRange(py, p[n])
  }

  lemma ReadsEveryValue(py: Texts, v: Value)
    requires ReadsEveryTime(py) && InRange(py, v)
    ensures Clean(py, v)
  {
    match v {
      case Str(text) => assert !TimeMs(py, Str(text)).TimeRaises?;
      case _ =>
    }
  }

  /** A value that raises, in the first field that may hold the event time, stops every contract. */
  lemma RaisingTime(py: Texts, c: Contract, v: Value, ts: int)
    requires TimeMs(py, v).TimeRaises?
    ensures Validate(py, c, map[c.TimeKeys()[0] := v], ts).Raises?
  {
    var p: Payload := map[c.TimeKeys()[0] := v];
    BlankIsNoTime(py, v);
    assert Get(p, c.TimeKeys()[0]) == v;
    if c.timeFields != [] {
      assert CheckTime(py, Get(p, c.timeFields[0])).Raises?;
    } else {
      assert CheckEventTime(py, c, p, ts).Raises?;
    }
    hide TimeMs, InferTime, CheckEach, CheckAny, ApplyRules, HasType;
  }

  /** So no contract is total: `json.loads` reads Infinity, which is no time. */
  lemma InfinityRaises(py: Texts, c: Contract, ts: int)
    ensures Validate(py, c, map[c.TimeKeys()[0] := Float(Infinite(true))], ts).Raises?
  {
    RaisingTime(py, c, Float(Infinite(true)), ts);
  }

  /** An otherwise correct trade with an integer price beyond the range of `float`: no verdict either. */
  lemma OversizePriceRaises(py: Texts, n: int, ts: int)
    requires !py.floats(n) && ts > 0
    ensures Validate(py, TRADE, map["T" := Int(1), "p" := Int(n), "q" := Int(1)], ts).Raises?
  {
    var p: Payload := map["T" := Int(1), "p" := Int(n), "q" := Int(1)];
    assert Get(p, "T") == Int(1) && Get(p, "E") == NoneValue && Get(p, "p") == Int(n);
    assert TimeMs(py, Int(1)) == Time(1000);
    assert TRADE.required[0] == Field("p", Number);
    assert CheckTimes(py, p, ["E"]).Accepted?;
    assert ["T", "E"][1..] == ["E"];
    assert CheckTimes(py, p, TRADE.timeFields).Accepted?;
    assert InferTime(py, p, TRADE.TimeKeys()) == Time(1000);
    assert CheckEach(py, p, TRADE.required, true).Raises?;
    hide CheckTimes, CheckEach, InferTime, ApplyRules;
  }

  /** And a trade whose price is NaN is accepted: no comparison objects to it. */
  lemma NaNPriceAccepted(py: Texts, ts: int)
    requires py.floats(1) && ts > 0
    ensures Validate(py, TRADE, map["T" := Int(1), "p" := Float(NaN), "q" := Int(1)], ts).Accepted?
  {
    var p: Payload := map["T" := Int(1), "p" := Float(NaN), "q" := Int(1)];
    assert PositiveOrNaN(py, Get(p, "p")) && PositiveOrNaN(py, Get(p, "q"));
    assert HasType(py, Get(p, "p"), Number) == Some(true) == HasType(py, Get(p, "q"), Number);
    assert Get(p, "E") == Get(p, "a") == Get(p, "t") == Get(p, "trade_id") == Get(p, "agg_trade_id") == NoneValue;
    assert Get(p, "T") == Int(1);
    hide PositiveOrNaN, HasType, Get;
    AcceptedExactly(py, TRADE, p, ts);
    BareTrade(py, p, ts);
    hide FieldsPass;
    assert forall r | r in TRADE.rules :: r.fields == ["p"] || r.fields == ["q"];
  }

  lemma BareTrade(py: Texts, p: Payload, ts: int)
    requires ts > 0 && Get(p, "T") == Int(1) && Get(p, "E") == Get(p, "a") == Get(p, "t") == NoneValue
    requires Get(p, "trade_id") == Get(p, "agg_trade_id") == NoneValue && !Blank(Get(p, "p")) && !Blank(Get(p, "q"))
    requires HasType(py, Get(p, "p"), Number) == Some(true) == HasType(py, Get(p, "q"), Number)
    ensures FieldsPass(py, TRADE, p, ts)
  {
    hide Get, TimeMs, InferTime;
    OneIsTime(py, p);
    assert TimeReadable(py, Get(p, "T")) && TimeReadable(py, Get(p, "E"));
    forall f | f in TRADE.optional ensures FieldHolds(py, p, f, false) {
      assert Get(p, f.key) == NoneValue;
    }
    hide HasType;
    assert forall f | f in TRADE.required :: FieldHolds(py, p, f, true);
  }

  lemma OneIsTime(py: Texts, p: Payload)
    requires Get(p, "T") == Int(1)
    ensures TimeMs(py, Get(p, "T")) == Time(1000) && InferTime(py, p, TRADE.TimeKeys()) == Time(1000)
  {
    assert TimeMs(py, Int(1)) == Time(1000);
  }

  /** A superscript two is a digit to `isdigit` but no number to `float`. */
  predicate Superscript(py: Texts) {
    py.digit('\U{B2}') && py.number("\U{B2}").None?
  }

  lemma SuperscriptRaises(py: Texts)
    requires Superscript(py)
    ensures TimeMs(py, Str("\U{B2}")).TimeRaises?
  {
    var s := "\U{B2}";
    hide Strip, WithoutFirst, ReadText, TimeMs;
    OneCharacter('\U{B2}');
    UnreadDigits(py, ['\U{B2}']);
    assert ['\U{B2}'] == s;
  }

  lemma OneCharacter(c: char)
    requires !IsSpace(c) && c != '.'
    ensures Strip([c]) == [c] && WithoutFirst([c], '.') == [c]
  {
    StripOf([], [c]);
    assert [] + [c] == [c];
  }

  /** A digit text that `float` rejects. */
  lemma UnreadDigits(py: Texts, s: string)
    requires Strip(s) == s && s != "" && DigitText(py, WithoutFirst(s, '.')) && py.number(s).None?
    ensures TimeMs(py, Str(s)).TimeRaises?
  {
    hide Strip, WithoutFirst, DigitText;
  }

  /** An otherwise correct trade whose time is that text: no verdict but an exception. */
  lemma SuperscriptTradeRaises(py: Texts, ts: int)
    requires Superscript(py)
    ensures Validate(py, TRADE, map["p" := Str("1"), "q" := Str("1"), "T" := Str("\U{B2}")], ts).Raises?
  {
    SuperscriptRaises(py);
    BlankIsNoTime(py, Str("\U{B2}"));
    var p: Payload := map["p" := Str("1"), "q" := Str("1"), "T" := Str("\U{B2}")];
    assert Get(p, TRADE.timeFields[0]) == Str("\U{B2}");
    hide TimeMs, InferTime, CheckEach, CheckAny, CheckEventTime, ApplyRules;
    assert CheckTime(py, Get(p, TRADE.timeFields[0])).Raises?;
  }

  // ------------------------------------------------------------------ probes

  /** A text that is a time and no number, such as an ISO date. */
  predicate TimeOnly(py: Texts, text: string) {
    py.number(text).None? && !py.integer(text) && TimeMs(py, Str(text)).Time?
  }

  function Distinct(names: seq<string>): set<string> {
    set n | n in names
  }

  function Names(c: Contract): set<string> {
    (set f | f in c.required + c.fieldTypes + c.optional :: f.key)
    + (set names, n | names in c.requiredAny && n in names :: n)
    + Distinct(c.TimeKeys())
    + (set r, n | r in c.rules && n in r.fields :: n)
  }

  /** The fields that a probe leaves out, those that hold the text, and those that hold -1. */
  datatype Plan = Plan(lacking: set<string>, odd: set<string>, negative: set<string>)

  /** Every other field of the contract is 1. */
  function Probe(c: Contract, plan: Plan, text: string): Payload {
    map n | n in Names(c) && n !in plan.lacking ::
      if n in plan.odd then Str(text) else if n in plan.negative then Int(-1) else Int(1)
  }

  /** Nothing asks for a time in the field. */
  predicate TimeFree(c: Contract, n: string) {
    && n !in c.TimeKeys()
    && forall f | f in c.required + c.fieldTypes + c.optional && f.key == n :: f.expected != Timestamp
  }

  /** The field requirements are satisfied by the plan's probe. */
  predicate Plausible(c: Contract, plan: Plan) {
    && CanLack(c, plan.lacking)
    && (forall n | n in plan.odd :: !Numeric(c, n))
    && (forall n | n in plan.negative :: TimeFree(c, n))
  }

  predicate ProbeValue(v: Value, text: string) {
    v == NoneValue || v == Int(1) || v == Int(-1) || v == Str(text)
  }

  lemma ProbeValues(c: Contract, plan: Plan, text: string, n: string)
    ensures var v := Get(Probe(c, plan, text), n);
            && ProbeValue(v, text)
            && (n in Names(c) && n !in plan.lacking ==> v != NoneValue)
            && (n in plan.odd && n in Names(c) && n !in plan.lacking ==> v == Str(text))
            && (n in plan.negative && n !in plan.odd && n in Names(c) && n !in plan.lacking ==> v == Int(-1))
            && (n !in plan.odd ==> v != Str(text))
            && (n !in plan.negative ==> v != Int(-1))
            && (n in plan.lacking ==> v == NoneValue)
  {
  }

  lemma FieldNames(c: Contract)
    ensures forall f | f in c.required || f in c.fieldTypes || f in c.optional :: f.key in Names(c)
    ensures forall names, n | names in c.requiredAny && n in names :: n in Names(c)
    ensures forall n | n in c.TimeKeys() :: n in Names(c)
    ensures forall r, n | r in c.rules && n in r.fields :: n in Names(c)
  {
    forall f | f in c.required || f in c.fieldTypes || f in c.optional ensures f.key in Names(c) {
      assert f in c.required + c.fieldTypes + c.optional;
    }
  }

  lemma ProbeInRange(py: Texts, c: Contract, plan: Plan, text: string)
    requires py.Consistent()
    ensures AllInRange(py, Probe(c, plan, text))
  {
  }

  /** What the values of a probe are as times. */
  lemma ProbeTimes(py: Texts, text: string, v: Value)
    requires TimeOnly(py, text) && ProbeValue(v, text)
    ensures Blank(v) <==> v == NoneValue
    ensures !TimeMs(py, v).TimeRaises?
    ensures TimeMs(py, v).Time? <==> v == Int(1) || v == Str(text)
    ensures TimeMs(py, v).Time? ==> TimeMs(py, v).ms <= 1000 + TimeMs(py, Str(text)).ms
    ensures TimeMs(py, Str(text)).ms > 0
  {
    BlankIsNoTime(py, Str(text));
    hide ReadText;
  }

  lemma ProbePassesField(py: Texts, c: Contract, plan: Plan, text: string, f: Field, mustExist: bool)
    requires py.Consistent() && TimeOnly(py, text) && Plausible(c, plan)
    requires f in c.required || f in c.fieldTypes || f in c.optional
    requires mustExist ==> f.key !in plan.lacking
    ensures FieldHolds(py, Probe(c, plan, text), f, mustExist)
  {
    assert f in c.required + c.fieldTypes + c.optional;
    assert f.key in plan.negative ==> f.expected != Timestamp;
    assert f.key in plan.odd ==> f.expected != Number && f.expected != Integer;
    hide Probe, Names, CanLack, TimeMs, Numeric, TimeFree, TimeOnly, Plausible;
    FieldNames(c);
    ProbeValues(c, plan, text, f.key);
    var v := Get(Probe(c, plan, text), f.key);
    ProbeTimes(py, text, v);
    ProbeTyped(py, text, v, f.expected);
  }

  lemma ProbeTyped(py: Texts, text: string, v: Value, expected: FieldType)
    requires py.Consistent() && ProbeValue(v, text)
    requires expected == Timestamp ==> Blank(v) || TimeMs(py, v).Time?
    requires expected in {Number, Integer} ==> v != Str(text)
    ensures HasType(py, v, expected) == Some(true)
  {
    hide TimeMs;
  }

  lemma {:induction false} KeyGivesTime(py: Texts, p: Payload, keys: seq<string>, k: nat)
    requires k < |keys| && TimeMs(py, Get(p, keys[k])).Time?
    requires forall j | 0 <= j < k :: !TimeMs(py, Get(p, keys[j])).TimeRaises?
    ensures InferTime(py, p, keys).Time?
  {
    hide TimeMs;
    if k > 0 {
      assert forall j | 0 <= j < k - 1 :: keys[1..][j] == keys[j + 1];
      KeyGivesTime(py, p, keys[1..], k - 1);
    }
  }

  lemma {:induction false} NoReadRaises(py: Texts, p: Payload, keys: seq<string>)
    requires forall j | 0 <= j < |keys| :: !TimeMs(py, Get(p, keys[j])).TimeRaises?
    ensures !InferTime(py, p, keys).TimeRaises?
  {
    hide TimeMs;
    if keys != [] {
      assert forall j | 0 <= j < |keys| - 1 :: keys[1..][j] == keys[j + 1];
      NoReadRaises(py, p, keys[1..]);
    }
  }

  lemma ProbePassesTime(py: Texts, c: Contract, plan: Plan, text: string, ts: int)
    requires TimeOnly(py, text) && Plausible(c, plan) && ts >= 1000 + TimeMs(py, Str(text)).ms
    ensures EventTimeHolds(py, c, Probe(c, plan, text), ts)
    ensures forall k | k in c.timeFields :: TimeReadable(py, Get(Probe(c, plan, text), k))
  {
    var p, keys := Probe(c, plan, text), c.TimeKeys();
    var latest := 1000 + TimeMs(py, Str(text)).ms;
    assert forall k | k in c.timeFields :: k in keys;
    assert forall k | k in keys :: k !in plan.negative;
    hide Probe, Names, TimeMs, Get, InferTime, TimeOnly, TimeFree, Numeric, Contract.TimeKeys;
    forall n | n in keys
      ensures Blank(Get(p, n)) || TimeMs(py, Get(p, n)).Time?
      ensures !TimeMs(py, Get(p, n)).TimeRaises?
      ensures TimeMs(py, Get(p, n)).Time? ==> TimeMs(py, Get(p, n)).ms <= latest
    {
      ProbeValues(c, plan, text, n);
      ProbeTimes(py, text, Get(p, n));
    }
    NoReadRaises(py, p, keys);
    if c.requireTime {
      var k :| 0 <= k < |keys| && keys[k] !in plan.lacking;
      FieldNames(c);
      ProbeValues(c, plan, text, keys[k]);
      ProbeTimes(py, text, Get(p, keys[k]));
      KeyGivesTime(py, p, keys, k);
    }
    if InferTime(py, p, keys).Time? {
      TimeFromKey(py, p, keys);
    }
  }

  lemma ProbePasses(py: Texts, c: Contract, plan: Plan, text: string, ts: int)
    requires py.Consistent() && TimeOnly(py, text) && Plausible(c, plan) && ts >= 1000 + TimeMs(py, Str(text)).ms
    ensures FieldsPass(py, c, Probe(c, plan, text), ts)
  {
    hide Probe, Names, FieldHolds, TimeReadable, EventTimeHolds, Contract.TimeKeys, TimeOnly, Numeric, TimeFree, TimeMs;
    var p := Probe(c, plan, text);
    ProbePassesTime(py, c, plan, text, ts);
    forall f | f in c.required ensures FieldHolds(py, p, f, true) {
      ProbePassesField(py, c, plan, text, f, true);
    }
    forall f | f in c.fieldTypes || f in c.optional ensures FieldHolds(py, p, f, false) {
      ProbePassesField(py, c, plan, text, f, false);
    }
    FieldNames(c);
    forall names | names in c.requiredAny ensures HasAny(p, names) {
      var k :| 0 <= k < |names| && names[k] !in plan.lacking;
      ProbeValues(c, plan, text, names[k]);
      ProbeTimes(py, text, Get(p, names[k]));
    }
  }

  // ------------------------------------------------------------------ the rules on a probe

  predicate Mild(v: Value, text: string) {
    v == NoneValue || v == Int(1) || v == Str(text)
  }

  /** The fields hold nothing but ones, texts and gaps. */
  ghost predicate Harmless(p: Payload, text: string, fields: seq<string>) {
    forall n | n in fields :: Mild(Get(p, n), text)
  }

  lemma TimeOnlyNumber(py: Texts, text: string)
    requires TimeOnly(py, text)
    ensures AsFloat(py, Str(text)).None? && !Blank(Str(text))
  {
    hide ReadText;
    BlankIsNoTime(py, Str(text));
  }

  lemma MildNumber(py: Texts, text: string, v: Value)
    requires TimeOnly(py, text) && Mild(v, text)
    ensures AsFloat(py, v) == None || AsFloat(py, v) == Some(Finite(1.0))
  {
    TimeOnlyNumber(py, text);
    hide TimeOnly;
  }

  lemma {:induction false} NotAllNegativeHere(py: Texts, p: Payload, text: string, fields: seq<string>)
    requires TimeOnly(py, text) && Harmless(p, text, fields) && HasAny(p, fields)
    ensures AllNegative(py, p, fields) != Some(true)
  {
    assert fields[0] in fields;
    MildNumber(py, text, Get(p, fields[0]));
    hide TimeOnly, Mild, AsFloat, Blank, Get;
    if Blank(Get(p, fields[0])) {
      var i :| 0 <= i < |fields| && !Blank(Get(p, fields[i]));
      assert fields[1..][i - 1] == fields[i];
      NotAllNegativeHere(py, p, text, fields[1..]);
    }
  }

  lemma HarmlessNeverRejected(py: Texts, p: Payload, text: string, r: Rule)
    requires TimeOnly(py, text) && Harmless(p, text, r.fields)
    ensures !ApplyRule(py, p, r).Rejected?
  {
    hide TimeOnly, Mild, AsFloat, Get, HasAny;
    forall i | 0 <= i < |r.fields|
      ensures AsFloat(py, Get(p, r.fields[i])) == None || AsFloat(py, Get(p, r.fields[i])) == Some(Finite(1.0))
    {
      assert r.fields[i] in r.fields;
      MildNumber(py, text, Get(p, r.fields[i]));
    }
    if r.name == "non_negative_any" && HasAny(p, r.fields) {
      NotAllNegativeHere(py, p, text, r.fields);
    }
  }

  lemma {:induction false} OneRuleRaises(py: Texts, p: Payload, rules: seq<Rule>, k: nat)
    requires forall r | r in rules :: !ApplyRule(py, p, r).Rejected?
    requires k < |rules| && ApplyRule(py, p, rules[k]).Raises?
    ensures ApplyRules(py, p, rules).Raises?
  {
    hide ApplyRule;
    if k > 0 {
      assert rules[0] in rules;
      OneRuleRaises(py, p, rules[1..], k - 1);
    }
  }

  lemma {:induction false} UnparsableField(py: Texts, p: Payload, fields: seq<string>, k: nat)
    requires k < |fields| && !Blank(Get(p, fields[k])) && AsFloat(py, Get(p, fields[k])).None?
    requires forall i | 0 <= i < k :: Get(p, fields[i]) == NoneValue || Get(p, fields[i]) == Int(-1)
    ensures AllNegative(py, p, fields).None?
  {
    if k > 0 {
      assert forall i | 0 <= i < k - 1 :: fields[1..][i] == fields[i + 1];
      UnparsableField(py, p, fields[1..], k - 1);
    }
  }

  // ------------------------------------------------------------------ unguarded contracts raise

  /** The field can hold a negative number without any other rule or requirement noticing. */
  predicate Free(c: Contract, r: Rule, n: string) {
    TimeFree(c, n) && forall other | other in c.rules && other != r :: n !in other.fields
  }

  lemma FreeOfTime(c: Contract, r: Rule, n: string)
    ensures Free(c, r, n) ==> TimeFree(c, n)
  {
  }

  /** The fields before the last one that cannot hold a negative number. */
  function Bound(c: Contract, r: Rule): set<string> {
    if r.fields == [] then {} else set n | n in r.fields[..|r.fields| - 1] && !Free(c, r, n)
  }

  /** In every non_negative_any rule the fields before the last one can be left out or made negative;
      or nothing satisfies the contract. */
  predicate Separable(c: Contract) {
    [] in c.requiredAny || forall r | r in c.rules && r.name == "non_negative_any" :: CanLack(c, Bound(c, r))
  }

  lemma LackNothing(c: Contract)
    requires [] !in c.requiredAny
    ensures CanLack(c, {})
  {
    var none: set<string> := {};
    forall names | names in c.requiredAny ensures Beyond(names, none) {
      assert names != [] && names[0] !in none;
    }
    assert c.TimeKeys()[0] !in none;
  }

  lemma LackLess(c: Contract, fewer: set<string>, more: set<string>)
    requires fewer <= more && CanLack(c, more)
    ensures CanLack(c, fewer)
  {
    hide Contract.TimeKeys;
  }

  /** A field that the contract does not vouch for can be missing or hold the text. */
  lemma UnsureField(py: Texts, c: Contract, text: string, r: Rule, key: string) returns (plan: Plan)
    requires TimeOnly(py, text) && [] !in c.requiredAny && r in c.rules && key in r.fields && !Sure(c, key)
    ensures Plausible(c, plan) && plan.negative == {}
    ensures AsFloat(py, Get(Probe(c, plan, text), key)).None?
  {
    hide Numeric, CanLack, Probe, Names, TimeFree;
    LackNothing(c);
    FieldNames(c);
    plan := if Numeric(c, key) then Plan({key}, {}, {}) else Plan({}, {key}, {});
    ProbeValues(c, plan, text, key);
    TimeOnlyNumber(py, text);
  }

  lemma FirstUnchecked(c: Contract, fields: seq<string>) returns (k: nat)
    requires exists i :: 0 <= i < |fields| && !Numeric(c, fields[i])
    ensures k < |fields| && !Numeric(c, fields[k]) && forall i | 0 <= i < k :: Numeric(c, fields[i])
  {
    hide Numeric;
    k := 0;
    while Numeric(c, fields[k])
      invariant k < |fields| && forall i | 0 <= i < k :: Numeric(c, fields[i])
      decreases |fields| - k
    {
      k := k + 1;
    }
  }

  /** The plan for an unchecked field of a non_negative_any rule: gaps and -1 before it. */
  lemma UncheckedPlan(c: Contract, r: Rule) returns (plan: Plan, k: nat)
    requires [] !in c.requiredAny && Separable(c) && r in c.rules && r.name == "non_negative_any" && !RuleGuarded(c, r)
    ensures k < |r.fields| && plan.odd == {r.fields[k]} && Plausible(c, plan)
    ensures forall n | n in plan.negative :: Free(c, r, n)
    ensures forall i | 0 <= i < k ::
              r.fields[i] !in plan.odd && (r.fields[i] in plan.lacking || r.fields[i] in plan.negative)
    ensures r.fields[k] !in plan.lacking
  {
    hide Numeric, CanLack, TimeFree, Free, Sure;
    k := FirstUnchecked(c, r.fields);
    var before := r.fields[..k];
    plan := Plan(set n | n in before && !Free(c, r, n), {r.fields[k]}, set n | n in before && Free(c, r, n));
    forall n | n in plan.negative ensures TimeFree(c, n) {
      FreeOfTime(c, r, n);
    }
    assert forall n | n in before :: n in r.fields[..|r.fields| - 1];
    assert plan.lacking <= Bound(c, r);
    LackLess(c, plan.lacking, Bound(c, r));
    forall i | 0 <= i < k
      ensures r.fields[i] != r.fields[k] && (r.fields[i] in plan.lacking || r.fields[i] in plan.negative)
    {
      assert Numeric(c, r.fields[i]) && r.fields[i] == before[i];
    }
    assert r.fields[k] !in before;
  }

  lemma UncheckedField(py: Texts, c: Contract, text: string, r: Rule) returns (plan: Plan)
    requires TimeOnly(py, text) && [] !in c.requiredAny && Separable(c)
    requires r in c.rules && r.name == "non_negative_any" && !RuleGuarded(c, r)
    ensures Plausible(c, plan) && forall n | n in plan.negative :: Free(c, r, n)
    ensures ApplyRule(py, Probe(c, plan, text), r).Raises?
  {
    hide Probe, Names, TimeOnly, Plausible, Separable, RuleGuarded, Free;
    var k;
    plan, k := UncheckedPlan(c, r);
    var p := Probe(c, plan, text);
    FieldNames(c);
    forall i | 0 <= i < k ensures Get(p, r.fields[i]) == NoneValue || Get(p, r.fields[i]) == Int(-1) {
      ProbeValues(c, plan, text, r.fields[i]);
    }
    ProbeValues(c, plan, text, r.fields[k]);
    TimeOnlyNumber(py, text);
    hide Get;
    UnparsableField(py, p, r.fields, k);
  }

  /** For every unguarded rule some probe makes the rule raise, and no rule rejects it. */
  lemma UnguardedRule(py: Texts, c: Contract, text: string, r: Rule) returns (plan: Plan)
    requires TimeOnly(py, text) && [] !in c.requiredAny && Separable(c) && r in c.rules && !RuleGuarded(c, r)
    ensures Plausible(c, plan) && ApplyRule(py, Probe(c, plan, text), r).Raises?
    ensures forall other | other in c.rules && other != r :: Harmless(Probe(c, plan, text), text, other.fields)
  {
    hide Numeric, CanLack, Probe, Names, TimeOnly, TimeFree, Separable, Get;
    if r.name == "non_negative_any" {
      plan := UncheckedField(py, c, text, r);
    } else if r.fields == [] || (r.name == "bid_lte_ask" && |r.fields| < 2) {
      LackNothing(c);
      plan := Plan({}, {}, {});
    } else if !Sure(c, r.fields[0]) {
      plan := UnsureField(py, c, text, r, r.fields[0]);
    } else {
      plan := UnsureField(py, c, text, r, r.fields[1]);
    }
    assert forall n | n in plan.negative :: Free(c, r, n);
    hide ApplyRule, RuleGuarded, Plausible;
    forall other, n | other in c.rules && other != r && n in other.fields
      ensures Mild(Get(Probe(c, plan, text), n), text)
    {
      ProbeValues(c, plan, text, n);
    }
  }

  /** A probe that raises in a rule. */
  lemma UnguardedRaises(py: Texts, c: Contract, text: string) returns (p: Payload, ts: int)
    requires py.Consistent() && TimeOnly(py, text) && [] !in c.requiredAny && Separable(c) && !Guarded(c)
    ensures ts > 0 && Validate(py, c, p, ts).Raises? && AllInRange(py, p)
  {
    hide RuleGuarded, Separable, CheckFields, Probe, FieldsPass, ApplyRule, ApplyRules, Plausible, Harmless,
        TimeOnly, TimeMs;
    var r :| r in c.rules && !RuleGuarded(c, r);
    var k :| 0 <= k < |c.rules| && c.rules[k] == r;
    var plan := UnguardedRule(py, c, text, r);
    ProbeInRange(py, c, plan, text);
    ProbeTimes(py, text, Str(text));
    p, ts := Probe(c, plan, text), 1000 + TimeMs(py, Str(text)).ms;
    ProbePasses(py, c, plan, text, ts);
    FieldsPassExactly(py, c, p, ts);
    forall other | other in c.rules ensures !ApplyRule(py, p, other).Rejected? {
      if other != r {
        HarmlessNeverRejected(py, p, text, other);
      }
    }
    OneRuleRaises(py, p, c.rules, k);
  }

  /** Under a reading that never raises, a contract with an empty group rejects before the rules. */
  lemma EmptyGroupRejects(py: Texts, c: Contract, p: Payload, ts: int)
    requires [] in c.requiredAny
    ensures !CheckFields(py, c, p, ts).Accepted?
  {
    hide TimeReadable, EventTimeHolds, FieldHolds, CheckFields;
    FieldsPassExactly(py, c, p, ts);
    assert !HasAny(p, []);
  }

  lemma ReadableChecksNeverRaise(py: Texts, c: Contract, p: Payload, ts: int)
    requires ReadsEveryTime(py) && AllInRange(py, p)
    ensures !CheckFields(py, c, p, ts).Raises?
  {
    NoRuleInFieldPart(c);
    FieldPartStop(py, c, p, ts);
    StopRaises(py, c, p, ts, FieldPart(c));
    assert InRange(py, NoneValue);
    hide FirstStop, FieldPart, CheckFields, TimeMs, Passes, ReadsEveryTime, InRange, CheckRaises, Clean;
    forall n ensures Clean(py, Get(p, n)) {
      ReadsEveryValue(py, Get(p, n));
    }
    forall check | check in FieldPart(c) ensures !CheckRaises(py, c, p, check) {
      CleanNeverRaises(py, c, p, check);
    }
  }

  lemma CleanNeverRaises(py: Texts, c: Contract, p: Payload, check: Check)
    requires (forall n :: Clean(py, Get(p, n))) && !check.Quality?
    ensures !CheckRaises(py, c, p, check)
  {
    hide TimeMs, Contract.TimeKeys, RuleRaises, TypeRaises, Clean;
    forall n ensures !TimeMs(py, Get(p, n)).TimeRaises? {
      CleanConverts(py, Get(p, n), Timestamp);
    }
    if check.Required? || check.Typed? {
      CleanConverts(py, Get(p, check.f.key), check.f.expected);
    }
  }

  /** Validation gives every payload whose numbers are in range a verdict exactly when Python reads every
      text as a time or as no time, and the contract is guarded or unsatisfiable. */
  lemma TotalExactly(py: Texts, c: Contract, text: string)
    requires py.Consistent() && TimeOnly(py, text) && Separable(c)
    ensures (forall p, ts | ts > 0 && AllInRange(py, p) :: !Validate(py, c, p, ts).Raises?)
            <==> ReadsEveryTime(py) && (Guarded(c) || [] in c.requiredAny)
  {
    hide Guarded, Separable, CheckFields, FieldsPass, ApplyRules, TimeOnly, TimeMs, Validate;
    if !ReadsEveryTime(py) {
      var bad :| TimeMs(py, Str(bad)).TimeRaises?;
      RaisingTime(py, c, Str(bad), 1);
      assert AllInRange(py, map[c.TimeKeys()[0] := Str(bad)]);
    } else if Guarded(c) || [] in c.requiredAny {
      forall p, ts | ts > 0 && AllInRange(py, p) ensures !Validate(py, c, p, ts).Raises? {
        InRangeIsTotal(py, c, p, ts);
      }
    } else {
      var p, ts := UnguardedRaises(py, c, text);
    }
  }

  lemma InRangeIsTotal(py: Texts, c: Contract, p: Payload, ts: int)
    requires py.Consistent() && ReadsEveryTime(py) && AllInRange(py, p) && (Guarded(c) || [] in c.requiredAny)
    ensures !Validate(py, c, p, ts).Raises?
  {
    hide Guarded, CheckFields, TimeMs, ReadsEveryTime, InRange;
    if [] in c.requiredAny {
      ReadableChecksNeverRaise(py, c, p, ts);
      EmptyGroupRejects(py, c, p, ts);
    } else {
      forall n | n in p ensures Clean(py, p[n]) {
        ReadsEveryValue(py, p[n]);
      }
      GuardedIsTotal(py, c, p, ts);
    }
  }

  // ------------------------------------------------------------------ the contracts in the repository

  const TRADE := Contract(["T", "E"], true, [Field("p", Number), Field("q", Number)], [], [],
                          [Field("a", Integer), Field("t", Integer), Field("trade_id", Integer),
                           Field("agg_trade_id", Integer)],
                          [Rule("positive_price", ["p"]), Rule("positive_quantity", ["q"])])

  const BOOKTICKER := Contract(["E", "T", "event_time", "eventTime", "timestamp", "ts"], false,
                               [Field("b", Number), Field("a", Number)], [], [],
                               [Field("B", Number), Field("A", Number)],
                               [Rule("positive_price", ["b"]), Rule("positive_price", ["a"]),
                                Rule("bid_lte_ask", ["b", "a"])])

  const MARKPRICE := Contract(["E", "T", "time", "timestamp", "ts", "nextFundingTime"], false,
                              [Field("p", Number)], [], [], [Field("r", Number)], [Rule("positive_price", ["p"])])

  const OPENINTEREST := Contract(["E", "T", "time", "timestamp", "ts"], false, [], [["openInterest", "open_interest"]],
                                 [Field("openInterest", Number), Field("open_interest", Number)], [],
                                 [Rule("non_negative_any", ["openInterest", "open_interest"])])

  const SHIPPED := {TRADE, BOOKTICKER, MARKPRICE, OPENINTEREST}

  lemma RequiredNumberIsSure(c: Contract, f: Field)
    requires f in c.required && f.expected == Number
    ensures Sure(c, f.key)
  {
    assert f in c.required + c.fieldTypes + c.optional;
  }

  /** In all shipped contracts the rules only convert fields that the contract vouches for. */
  lemma ShippedContractsGuarded(c: Contract)
    requires c in SHIPPED
    ensures Guarded(c)
  {
    hide Sure, Numeric;
    assert TRADE.required[0] == Field("p", Number) && TRADE.required[1] == Field("q", Number);
    RequiredNumberIsSure(TRADE, TRADE.required[0]);
    RequiredNumberIsSure(TRADE, TRADE.required[1]);
    assert BOOKTICKER.required[0] == Field("b", Number) && BOOKTICKER.required[1] == Field("a", Number);
    RequiredNumberIsSure(BOOKTICKER, BOOKTICKER.required[0]);
    RequiredNumberIsSure(BOOKTICKER, BOOKTICKER.required[1]);
    assert MARKPRICE.required[0] == Field("p", Number);
    RequiredNumberIsSure(MARKPRICE, MARKPRICE.required[0]);
    OpenInterestGuarded();
  }

  lemma OpenInterestGuarded()
    ensures Guarded(OPENINTEREST)
  {
    var types := OPENINTEREST.required + OPENINTEREST.fieldTypes + OPENINTEREST.optional;
    assert types[0] == Field("openInterest", Number) && types[1] == Field("open_interest", Number);
    assert Numeric(OPENINTEREST, "openInterest") && Numeric(OPENINTEREST, "open_interest");
  }

  lemma ShippedContractsSeparable(c: Contract)
    requires c in SHIPPED
    ensures Separable(c) && [] !in c.requiredAny
  {
    hide Free, CanLack;
    if c == OPENINTEREST {
      var r := c.rules[0];
      assert r.fields[..1] == ["openInterest"];
      assert Bound(c, r) <= {"openInterest"};
      OpenInterestOptional();
      LackLess(c, Bound(c, r), {"openInterest"});
    }
  }

  lemma OpenInterestOptional()
    ensures CanLack(OPENINTEREST, {"openInterest"})
  {
    var names := ["openInterest", "open_interest"];
    assert names[1] !in {"openInterest"};
  }

  /** On the shipped contracts every field that a rule converts is typed as a number. */
  lemma ShippedRuleFields(c: Contract, r: Rule, n: string)
    requires c in SHIPPED && r in c.rules && n in r.fields
    ensures exists f :: f in c.required + c.fieldTypes + c.optional && f.key == n && f.expected == Number
  {
    if c == OPENINTEREST {
      var types := c.required + c.fieldTypes + c.optional;
      assert types[0] == Field("openInterest", Number) && types[1] == Field("open_interest", Number);
    } else {
      assert n in ["p", "q", "a", "b"];
      assert TRADE.required[0] == Field("p", Number) && TRADE.required[1] == Field("q", Number);
      assert BOOKTICKER.required[0] == Field("b", Number) && BOOKTICKER.required[1] == Field("a", Number);
      assert MARKPRICE.required[0] == Field("p", Number);
    }
  }

  /** On the shipped contracts no rule raises, since the type checks raise first: validation raises
      exactly when some check before the rules makes a conversion that raises, and those before it pass. */
  lemma ShippedRaisesExactly(py: Texts, c: Contract, p: Payload, ts: int)
    requires c in SHIPPED && py.Consistent()
    ensures Validate(py, c, p, ts).Raises? <==> exists k: nat :: RaisesAt(py, c, p, ts, FieldPart(c), k)
  {
    hide RuleGuarded, SHIPPED, FieldPart, CheckFields, ApplyRules, RaisesAt, FirstStop, FieldsPass, RuleRaises;
    ShippedContractsGuarded(c);
    FieldPartStop(py, c, p, ts);
    StopRaises(py, c, p, ts, FieldPart(c));
    FieldsPassExactly(py, c, p, ts);
    if FieldsPass(py, c, p, ts) {
      forall r | r in c.rules ensures !ApplyRule(py, p, r).Raises? {
        RuleRaisesExactly(py, p, r);
        GuardedRuleRaises(py, c, p, ts, r);
        if RuleOversize(py, p, r) {
          ShippedNumbersFit(py, c, p, ts, r);
        }
      }
      NoRuleRaises(py, p, c.rules);
    }
  }

  lemma {:induction false} NoRuleRaises(py: Texts, p: Payload, rules: seq<Rule>)
    requires forall r | r in rules :: !ApplyRule(py, p, r).Raises?
    ensures !ApplyRules(py, p, rules).Raises?
  {
    hide ApplyRule;
    if rules != [] {
      assert rules[0] in rules;
      NoRuleRaises(py, p, rules[1..]);
    }
  }

  lemma ShippedNumbersFit(py: Texts, c: Contract, p: Payload, ts: int, r: Rule)
    requires c in SHIPPED && FieldsPass(py, c, p, ts) && r in c.rules
    ensures !RuleOversize(py, p, r)
  {
    hide SHIPPED, FieldsPass, Oversize, FirstUnread, Blank;
    forall n | n in r.fields ensures !Oversize(py, Get(p, n)) {
      ShippedRuleFields(c, r, n);
      var f :| f in c.required + c.fieldTypes + c.optional && f.key == n && f.expected == Number;
      TypedNumberFits(py, c, p, ts, f);
    }
  }

  lemma TypedNumberFits(py: Texts, c: Contract, p: Payload, ts: int, f: Field)
    requires FieldsPass(py, c, p, ts) && f in c.required + c.fieldTypes + c.optional && f.expected == Number
    ensures !Oversize(py, Get(p, f.key))
  {
    hide EventTimeHolds, TimeReadable, TimeMs, HasAny, Contract.TimeKeys;
    assert FieldHolds(py, p, f, f in c.required) || FieldHolds(py, p, f, false);
  }

  /** The shipped contracts give every payload whose numbers are in range a verdict exactly when Python
      reads every text as a time or as no time, which the superscript two shows that it does not. */
  lemma ShippedTotalExactly(py: Texts, c: Contract, text: string)
    requires c in SHIPPED && py.Consistent() && TimeOnly(py, text)
    ensures (forall p, ts | ts > 0 && AllInRange(py, p) :: !Validate(py, c, p, ts).Raises?) <==> ReadsEveryTime(py)
    ensures Superscript(py) ==> !ReadsEveryTime(py)
  {
    hide Guarded, Separable, Validate, TimeMs, TimeOnly, SHIPPED, AllInRange;
    ShippedContractsGuarded(c);
    ShippedContractsSeparable(c);
    TotalExactly(py, c, text);
    if Superscript(py) {
      SuperscriptRaises(py);
    }
  }

  /** A type without a requirement is not enough: the absent price reaches `float(None)`. */
  lemma TypedButAbsent(py: Texts, ts: int)
    ensures var c := Contract([], false, [], [], [Field("p", Number)], [], [Rule("positive_price", ["p"])]);
            Numeric(c, "p") && Validate(py, c, map[], ts).Raises?
  {
    var c := Contract([], false, [], [], [Field("p", Number)], [], [Rule("positive_price", ["p"])]);
    var types := c.required + c.fieldTypes + c.optional;
    assert types[0] == Field("p", Number) && types[0] in types;
    FieldsPassExactly(py, c, map[], ts);
    NoReadRaises(py, map[], c.TimeKeys());
    if InferTime(py, map[], c.TimeKeys()).Time? {
      TimeFromKey(py, map[], c.TimeKeys());
    }
  }
}
