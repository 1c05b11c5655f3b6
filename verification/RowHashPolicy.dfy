/**
  The decimal canonicaliser of the row hash policy: round half up to twelve places in a 28-digit
  context, drop trailing zeros, print in fixed notation without a signed zero.
*/
module RowHashPolicy {
  import opened PyText
  import opened PyDigits

  /** A finite `decimal.Decimal`: sign, coefficient, exponent. */
  datatype Decimal = Decimal(neg: bool, coeff: nat, exp: int)

  const PLACES: int := 12
  const PRECISION: nat := 28

  // ------------------------------------------------------------------ the value

  /** c / p rounded to the nearest integer, ties upwards. */
  function RoundHalfUp(c: nat, p: nat): nat
    requires p > 0
  {
    (2 * c + p) / (2 * p)
  }

  /** The coefficient of `quantize(FLOAT_SCALE, ROUND_HALF_UP)`, whose exponent is -12. */
  function Quantize(d: Decimal): nat {
    if d.exp >= -PLACES then d.coeff * Pow10(d.exp + PLACES)
    else RoundHalfUp(d.coeff, Pow10(-PLACES - d.exp))
  }

  /** `quantize` raises when the result needs more digits than the context has. */
  predicate Fits(d: Decimal) {
    Quantize(d) < Pow10(PRECISION)
  }

  /** The rounded value, counted in units of the twelfth place. */
  function Units(d: Decimal): int {
    if d.neg then 0 - Quantize(d) else Quantize(d)
  }

  // ------------------------------------------------------------------ printing

  function Zeros(n: nat): (s: string)
    ensures |s| == n && AllDigits(s) && Number(s) == 0
    ensures forall c | c in s :: c == '0'
  {
    if n == 0 then []
    else
      assert (Zeros(n - 1) + ['0'])[..n - 1] == Zeros(n - 1);
      Zeros(n - 1) + ['0']
  }

  /** `normalize`: coefficient and exponent without trailing zeros. */
  function DropZeros(q: nat, exp: int): (r: (nat, int))
    ensures q == 0 ==> r == (0, 0)
    ensures q > 0 ==> r.0 % 10 != 0 && r.1 >= exp && r.0 * Pow10(r.1 - exp) == q
    decreases q
  {
    if q == 0 then (0, 0)
    else if q % 10 != 0 then (q, exp)
    else
      var r := DropZeros(q / 10, exp + 1);
      assert r.0 * Pow10(r.1 - exp) == q by {
        MulTen(r.0, Pow10(r.1 - exp - 1));
      }
      r
  }

  /** `format(x, "f")` for a non-negative number. */
  function Fixed(c: nat, exp: int): string {
    var s := Digits(c);
    if exp >= 0 then s + Zeros(exp)
    else if |s| > -exp then s[..|s| + exp] + "." + s[|s| + exp..]
    else "0." + Zeros(-exp - |s|) + s
  }

  function DropRight(s: string, c: char): (r: string)
    ensures r <= s
    ensures s == [] || s[|s| - 1] != c ==> r == s
  {
    if s == [] || s[|s| - 1] != c then s else DropRight(s[..|s| - 1], c)
  }

  /** `_normalize_decimal` on a finite number; None where `quantize` raises. */
  function NormalizeDecimal(d: Decimal): Option<string> {
    if d.coeff == 0 then Some("0")
    else if !Fits(d) then None
    else
      var (c, exp) := DropZeros(Quantize(d), -PLACES);
      var printed := (if d.neg then "-" else "") + Fixed(c, exp);
      var text := if '.' in printed then DropRight(DropRight(printed, '0'), '.') else printed;
      Some(if text == "-0" then "0" else text)
  }

  // ------------------------------------------------------------------ reading

  /** `Decimal(text)` for a plain numeral without a sign. */
  function ReadUnsigned(s: string): Option<(nat, int)> {
    match Find(s, '.')
    case None => if s != [] && AllDigits(s) then Some((Number(s), 0)) else None
    case Some(i) =>
      var whole, fraction := s[..i], s[i + 1..];
      if whole + fraction != [] && AllDigits(whole + fraction) then Some((Number(whole + fraction), -|fraction|))
      else None
  }

  /** `Decimal(text)` for a plain numeral. */
  function Read(s: string): Option<Decimal> {
    var neg := s != [] && s[0] == '-';
    match ReadUnsigned(if neg then s[1..] else s)
    case None => None
    case Some(r) => Some(Decimal(neg, r.0, r.1))
  }

  // ------------------------------------------------------------------ the printed form

  lemma {:induction false} LastDigit(c: nat)
    ensures Digits(c)[|Digits(c)| - 1] == DigitChar(c % 10)
  {
  }

  /** The printed number is read back as it was, and it ends in a digit that is not a trailing zero. */
  lemma {:induction false} FixedReadBack(c: nat, exp: int)
    requires c > 0 && (exp < 0 ==> c % 10 != 0)
    ensures var t := Fixed(c, exp);
            && t != [] && IsDigit(t[0])
            && ('.' in t ==> t[|t| - 1] != '0' && t[|t| - 1] != '.')
            && ReadUnsigned(t) == Some(if exp >= 0 then (c * Pow10(exp), 0) else (c, exp))
  {
    hide Digits, Number, Find;
    var s, t := Digits(c), Fixed(c, exp);
    NumberOfDigits(c);
    if exp >= 0 {
      NumberAppend(s, Zeros(exp));
      assert AllDigits(t) && '.' !in t;
      assert t[0] in t;
    } else {
      LastDigit(c);
      SplitDigits(c, exp);
    }
  }

  lemma {:induction false} PointReadBack(whole: string, fraction: string)
    requires AllDigits(whole) && AllDigits(fraction) && whole != [] && fraction != []
    ensures AllDigits(whole + fraction)
    ensures var t := whole + ['.'] + fraction;
            && ReadUnsigned(t) == Some((Number(whole + fraction), -|fraction|))
            && IsDigit(t[0]) && t[|t| - 1] == fraction[|fraction| - 1]
  {
    hide Number, Find;
    var t := whole + ['.'] + fraction;
    assert '.' !in whole && whole[0] in whole;
    FindAfter(whole, '.', fraction);
    assert t[..|whole|] == whole && t[|whole| + 1..] == fraction;
  }

  /** The digits of a fraction, on both sides of the point. */
  lemma {:induction false} SplitDigits(c: nat, exp: int)
    requires c > 0 && exp < 0
    ensures ReadUnsigned(Fixed(c, exp)) == Some((c, exp))
    ensures var t, s := Fixed(c, exp), Digits(c);
            t != [] && IsDigit(t[0]) && t[|t| - 1] == s[|s| - 1]
  {
    hide Digits, Number, ReadUnsigned;
    NumberOfDigits(c);
    if |Digits(c)| > -exp {
      LongSplit(Digits(c), |Digits(c)| + exp);
    } else {
      ShortSplit(Digits(c), -exp - |Digits(c)|);
    }
  }

  lemma {:induction false} LongSplit(s: string, n: nat)
    requires AllDigits(s) && 0 < n < |s|
    ensures var t := s[..n] + "." + s[n..];
            && ReadUnsigned(t) == Some((Number(s), n - |s|))
            && t != [] && IsDigit(t[0]) && t[|t| - 1] == s[|s| - 1]
  {
    hide Number, ReadUnsigned;
    PointReadBack(s[..n], s[n..]);
    assert s[..n] + s[n..] == s;
  }

  lemma {:induction false} ShortSplit(s: string, n: nat)
    requires AllDigits(s) && s != []
    ensures var t := "0." + Zeros(n) + s;
            && ReadUnsigned(t) == Some((Number(s), 0 - n - |s|))
            && t != [] && IsDigit(t[0]) && t[|t| - 1] == s[|s| - 1]
  {
    hide Number, ReadUnsigned;
    LeadingZeros(n, s);
    NumberAppend(Zeros(n), s);
    PointReadBack("0", Zeros(n) + s);
    assert "0." + Zeros(n) + s == "0" + ['.'] + (Zeros(n) + s);
  }

  lemma {:induction false} LeadingZeros(n: nat, s: string)
    requires AllDigits(s)
    ensures AllDigits("0" + (Zeros(n) + s)) && Number("0" + (Zeros(n) + s)) == Number(s)
  {
    ReadZero();
    NumberAppend("0", Zeros(n) + s);
    NumberAppend(Zeros(n), s);
  }

  /** The printed text as a function of sign and coefficient. */
  lemma Printed(d: Decimal)
    requires Fits(d) && Quantize(d) > 0
    ensures var (c, exp) := DropZeros(Quantize(d), -PLACES);
            NormalizeDecimal(d) == Some((if d.neg then "-" else "") + Fixed(c, exp))
  {
    hide Fixed, DropZeros, DropRight, ReadUnsigned;
    CoefficientPositive(d);
    var (c, exp) := DropZeros(Quantize(d), -PLACES);
    var t := Fixed(c, exp);
    FixedReadBack(c, exp);
    var printed := (if d.neg then "-" else "") + t;
    assert printed[|printed| - 1] == t[|t| - 1];
    assert '.' in printed <==> '.' in t;
    NotMinusZero(c, exp);
  }

  lemma CoefficientPositive(d: Decimal)
    requires Quantize(d) > 0
    ensures d.coeff > 0
  {
    if d.exp < -PLACES {
      RoundZero(Pow10(-PLACES - d.exp));
    }
  }

  lemma RoundZero(p: nat)
    requires p > 0
    ensures RoundHalfUp(0, p) == 0
  {
    HalfUp(0, p);
    hide RoundHalfUp;
    MulAtLeast(RoundHalfUp(0, p), p);
  }

  lemma MulAtLeast(q: nat, p: nat)
    ensures q >= 1 ==> q * p >= p
  {
    if q >= 1 {
      assert (q - 1) * p >= 0;
    }
  }

  lemma NotMinusZero(c: nat, exp: int)
    requires c > 0 && (exp < 0 ==> c % 10 != 0)
    ensures "-" + Fixed(c, exp) != "-0" && Fixed(c, exp) != "-0"
  {
    hide Fixed, ReadUnsigned;
    var t := Fixed(c, exp);
    FixedReadBack(c, exp);
    ReadZero();
    if exp >= 0 {
      MulPositive(c, Pow10(exp));
    }
    assert t != "0" && t[0] != '-';
    assert ("-" + t)[1..] == t && "-0"[1..] == "0";
  }

  lemma ReadZero()
    ensures ReadUnsigned("0") == Some((0, 0))
  {
    assert Number("0") == 10 * Number("0"[..0]) + 0;
  }

  lemma MulPositive(a: nat, b: nat)
    requires a > 0 && b > 0
    ensures a * b > 0
  {
  }

  lemma PrintedZero(d: Decimal)
    requires Quantize(d) == 0
    ensures NormalizeDecimal(d) == Some("0")
  {
    hide DropRight;
    assert Fits(d);
    assert DropZeros(0, -PLACES) == (0, 0);
    assert Fixed(0, 0) == "0";
    assert "" + "0" == "0" && "-" + "0" == "-0";
  }

  // ------------------------------------------------------------------ the canonical form

  /** `quantize` raises, and nothing else does. */
  lemma RaisesExactlyWhenTooLong(d: Decimal)
    ensures NormalizeDecimal(d).None? <==> Quantize(d) >= Pow10(28)
    ensures NormalizeDecimal(d).None? <==> !Fits(d)
  {
    if !Fits(d) {
      CoefficientPositive(d);
    }
  }

  /** Reading the printed text gives back the rounding. */
  lemma ReadBack(d: Decimal)
    requires Fits(d)
    ensures NormalizeDecimal(d).Some?
    ensures var back := Read(NormalizeDecimal(d).value);
            back.Some? && Units(back.value) == Units(d) && Fits(back.value)
  {
    hide Fixed, DropZeros, NormalizeDecimal, ReadUnsigned;
    if Quantize(d) == 0 {
      PrintedZero(d);
      ReadZero();
    } else {
      Printed(d);
      var (c, exp) := DropZeros(Quantize(d), -PLACES);
      var t := Fixed(c, exp);
      FixedReadBack(c, exp);
      assert ("-" + t)[1..] == t && "" + t == t;
      var back := Read(NormalizeDecimal(d).value).value;
      assert back == if exp >= 0 then Decimal(d.neg, c * Pow10(exp), 0) else Decimal(d.neg, c, exp);
      SameQuantum(c, exp);
    }
  }

  lemma SameQuantum(c: nat, exp: int)
    requires exp >= -PLACES
    ensures Quantize(if exp >= 0 then Decimal(false, c * Pow10(exp), 0) else Decimal(false, c, exp))
            == c * Pow10(exp + PLACES)
  {
    if exp >= 0 {
      PowAdd(exp, PLACES);
      MulAssoc(c, Pow10(exp), Pow10(PLACES));
    }
  }

  lemma MulAssoc(a: nat, b: nat, c: nat)
    ensures a * b * c == a * (b * c)
  {
  }

  /** Two numbers print the same text exactly when their roundings are equal. */
  lemma CanonicalForm(a: Decimal, b: Decimal)
    requires Fits(a) && Fits(b)
    ensures NormalizeDecimal(a) == NormalizeDecimal(b) <==> Units(a) == Units(b)
  {
    hide Read, NormalizeDecimal, Fixed, DropZeros;
    ReadBack(a);
    ReadBack(b);
    if Units(a) == Units(b) {
      if Units(a) == 0 {
        PrintedZero(a);
        PrintedZero(b);
      } else {
        Printed(a);
        Printed(b);
      }
    }
  }

  /** Printing what was printed changes nothing. */
  lemma PrintIdempotent(d: Decimal)
    requires Fits(d)
    ensures Read(NormalizeDecimal(d).value).Some?
    ensures NormalizeDecimal(Read(NormalizeDecimal(d).value).value) == NormalizeDecimal(d)
  {
    hide Read, NormalizeDecimal, Units, Fits;
    ReadBack(d);
    CanonicalForm(Read(NormalizeDecimal(d).value).value, d);
  }

  /** The rounding is off by at most half a unit of the twelfth place, and a tie goes away from zero;
      up to twelve places nothing is rounded. */
  lemma RoundingError(d: Decimal)
    ensures d.exp >= -12 ==> Quantize(d) == d.coeff * Pow10(d.exp + 12)
    ensures d.exp < -12 ==>
              var unit := Pow10(-12 - d.exp);
              2 * d.coeff - unit < 2 * (Quantize(d) * unit) <= 2 * d.coeff + unit
  {
    if d.exp < -PLACES {
      var unit := Pow10(-PLACES - d.exp);
      HalfUp(d.coeff, unit);
    }
  }

  lemma HalfUp(c: nat, p: nat)
    requires p > 0
    ensures 2 * c - p < 2 * (RoundHalfUp(c, p) * p) <= 2 * c + p
  {
    var q, r := (2 * c + p) / (2 * p), (2 * c + p) % (2 * p);
    assert 2 * c + p == q * (2 * p) + r;
    assert q * (2 * p) == 2 * (q * p);
  }

  /** The text never is a signed zero and never ends in a zero or a point after the decimal point. */
  lemma PrintedShape(d: Decimal)
    requires Fits(d)
    ensures var t := NormalizeDecimal(d).value;
            && t != "-0" && t != "" && (t[0] == '-' || IsDigit(t[0]))
            && ('.' in t ==> t[|t| - 1] != '0' && t[|t| - 1] != '.')
  {
    hide Fixed, DropZeros, NormalizeDecimal, ReadUnsigned, Read, Units, Quantize;
    ReadBack(d);
    if Quantize(d) == 0 {
      PrintedZero(d);
      assert "0"[0] == '0' && '.' !in "0";
    } else {
      Printed(d);
      var (c, exp) := DropZeros(Quantize(d), -PLACES);
      var t := Fixed(c, exp);
      FixedReadBack(c, exp);
      NotMinusZero(c, exp);
      assert "" + t == t;
      assert ("-" + t)[|t|] == t[|t| - 1];
      assert '.' in "-" + t <==> '.' in t;
    }
  }

  /** The text has a minus sign exactly when the number is negative and does not round to zero. */
  lemma PrintedSign(d: Decimal)
    requires Fits(d)
    ensures "-" <= NormalizeDecimal(d).value <==> d.neg && Quantize(d) > 0
    ensures Units(d) < 0 <==> d.neg && Quantize(d) > 0
  {
    hide Fixed, DropZeros, NormalizeDecimal, ReadUnsigned, Read, Quantize;
    ReadBack(d);
    if Quantize(d) == 0 {
      PrintedZero(d);
      assert "-"[0] != "0"[0];
    } else {
      Printed(d);
      var (c, exp) := DropZeros(Quantize(d), -PLACES);
      var t := Fixed(c, exp);
      FixedReadBack(c, exp);
      NotMinusZero(c, exp);
      assert "" + t == t;
      assert ("-" + t)[0] == '-' && t[0] != '-';
    }
  }

  // ------------------------------------------------------------------ hashed cells

  const NULL_SENTINEL := "__NULL__"

  datatype Cell = NullCell | NumberCell(number: Decimal) | TextCell(text: string)

  /** `normalize_hash_value` on a column of numbers or of text; None where `quantize` raises. */
  function NormalizeCell(c: Cell): Option<string> {
    match c
    case NullCell => Some(NULL_SENTINEL)
    case NumberCell(d) => NormalizeDecimal(d)
    case TextCell(s) => Some(s)
  }

  /** The hashed text of each column of a row, in the order of the columns. */
  function Payload(columns: seq<string>, row: map<string, Cell>): seq<(string, Option<string>)>
    requires forall c | c in columns :: c in row
  {
    if columns == [] then [] else [(columns[0], NormalizeCell(row[columns[0]]))] + Payload(columns[1..], row)
  }

  /** What the hash can tell apart: NULL from everything, and numbers by their rounding. */
  predicate SameCell(a: Cell, b: Cell) {
    match (a, b)
    case (NumberCell(x), NumberCell(y)) => Units(x) == Units(y)
    case (_, _) => a == b
  }

  /** Cells of one column: each is NULL or of the column's kind, and numbers fit. */
  predicate Comparable(a: Cell, b: Cell) {
    && (a.NumberCell? ==> Fits(a.number) && !b.TextCell?)
    && (b.NumberCell? ==> Fits(b.number) && !a.TextCell?)
  }

  /** One is NULL and the other is the text that stands for NULL. */
  predicate Collide(a: Cell, b: Cell) {
    {a, b} == {NullCell, TextCell("__NULL__")}
  }

  predicate HashesAlike(a: Cell, b: Cell) {
    SameCell(a, b) || Collide(a, b)
  }

  /** The text tells two cells apart exactly when they differ, but for NULL and its sentinel. */
  lemma SameCellSameText(a: Cell, b: Cell)
    requires Comparable(a, b)
    ensures NormalizeCell(a) == NormalizeCell(b) <==> SameCell(a, b) || Collide(a, b)
  {
    hide NormalizeDecimal, Fits, Units;
    if a.NumberCell? {
      PrintedShape(a.number);
      ReadBack(a.number);
    }
    if b.NumberCell? {
      PrintedShape(b.number);
      ReadBack(b.number);
    }
    if a.NumberCell? && b.NumberCell? {
      CanonicalForm(a.number, b.number);
    }
    if Collide(a, b) {
      assert a in {a, b} && b in {a, b};
    }
  }

  /** Two rows with the same columns have the same payload exactly when every pair of cells hashes alike. */
  lemma {:induction false} SameRowSamePayload(columns: seq<string>, a: map<string, Cell>, b: map<string, Cell>)
    requires forall c | c in columns :: c in a && c in b && Comparable(a[c], b[c])
    ensures Payload(columns, a) == Payload(columns, b) <==> forall c | c in columns :: HashesAlike(a[c], b[c])
  {
    hide NormalizeCell, SameCell, Comparable, Collide;
    if columns != [] {
      var c, rest := columns[0], columns[1..];
      SameCellSameText(a[c], b[c]);
      hide HashesAlike;
      assert HashesAlike(a[c], b[c]) <==> NormalizeCell(a[c]) == NormalizeCell(b[c]);
      SameRowSamePayload(rest, a, b);
      assert columns == [c] + rest;
      assert Payload(columns, a)[1..] == Payload(rest, a) && Payload(columns, b)[1..] == Payload(rest, b);
      assert Payload(columns, a)[0] == (c, NormalizeCell(a[c])) && Payload(columns, b)[0] == (c, NormalizeCell(b[c]));
    }
  }

  /** In a text column the sentinel itself cannot be told from NULL. */
  lemma SentinelCollides()
    ensures NormalizeCell(TextCell("__NULL__")) == NormalizeCell(NullCell)
    ensures !SameCell(TextCell("__NULL__"), NullCell)
  {
  }

  // ------------------------------------------------------------------ hashed rows

  /** The columns of a table, in the order in which they are hashed. */
  datatype HashColumns = HashColumns(required: seq<string>, optional: seq<string>)

  function PresentIn(columns: seq<string>, row: map<string, Cell>): (r: seq<string>)
    ensures forall c :: c in r <==> c in columns && c in row
  {
    if columns == [] then []
    else
      var rest := PresentIn(columns[1..], row);
      if columns[0] in row then [columns[0]] + rest else rest
  }

  /** The columns of a row that `build_row_hash` hashes; None where a required one is missing. */
  function HashedColumns(cols: HashColumns, row: map<string, Cell>): (r: Option<seq<string>>)
    ensures r.Some? <==> forall c | c in cols.required :: c in row
    ensures r.Some? ==> forall c :: c in r.value <==> c in row && (c in cols.required || c in cols.optional)
  {
    if forall c | c in cols.required :: c in row then Some(cols.required + PresentIn(cols.optional, row)) else None
  }

  /** `build_row_hash` before serialisation: the canonical table and the hashed cells. */
  function RowPayload(table: string, known: map<string, HashColumns>, row: map<string, Cell>)
    : Option<(string, seq<(string, Option<string>)>)>
  {
    match CanonicalTable(table, known.Keys)
    case None => None
    case Some(name) =>
      match HashedColumns(known[name], row)
      case None => None
      case Some(columns) => Some((name, Payload(columns, row)))
  }

  /** `_canonical_table_name`: a known name, or the shadow table of a stream table. */
  function CanonicalTable(table: string, known: set<string>): (r: Option<string>)
    ensures r.Some? ==> r.value in known
  {
    var name := Strip(table);
    if name in known then Some(name)
    else if "stream." <= name && "stream_shadow." + name[7..] in known then Some("stream_shadow." + name[7..])
    else None
  }

  /** A table is known by its trimmed name, or as the stream table of a known shadow table. */
  lemma CanonicalExactly(table: string, known: set<string>, name: string)
    ensures CanonicalTable(table, known) == Some(name) <==>
              name in known && if Strip(table) in known then name == Strip(table)
                               else exists t :: Strip(table) == "stream." + t && name == "stream_shadow." + t
  {
    hide Strip;
    var s := Strip(table);
    if "stream." <= s {
      assert s == "stream." + s[7..];
    }
    if t :| s == "stream." + t {
      assert s[..7] == "stream." && s[7..] == t;
    }
  }

  lemma {:induction false} PresentSame(columns: seq<string>, a: map<string, Cell>, b: map<string, Cell>)
    requires forall c | c in columns :: c in a <==> c in b
    ensures PresentIn(columns, a) == PresentIn(columns, b)
  {
    if columns != [] {
      PresentSame(columns[1..], a, b);
    }
  }

  lemma {:induction false} PayloadNames(columns: seq<string>, row: map<string, Cell>)
    requires forall c | c in columns :: c in row
    ensures |Payload(columns, row)| == |columns|
    ensures forall i | 0 <= i < |columns| :: Payload(columns, row)[i].0 == columns[i]
  {
    if columns != [] {
      PayloadNames(columns[1..], row);
    }
  }

  /** Two rows of a table hash the same text exactly when they have the same optional columns and all
      their cells hash alike: the same cells, or NULL against its sentinel. */
  lemma SameHashExactly(table: string, known: map<string, HashColumns>, a: map<string, Cell>, b: map<string, Cell>)
    requires RowPayload(table, known, a).Some? && RowPayload(table, known, b).Some?
    requires forall c | c in a && c in b :: Comparable(a[c], b[c])
    ensures var cols := known[CanonicalTable(table, known.Keys).value];
            RowPayload(table, known, a) == RowPayload(table, known, b)
            <==> && (forall c | c in cols.optional :: c in a <==> c in b)
                 && (forall c | (c in cols.required || c in cols.optional) && c in a && c in b ::
                       SameCell(a[c], b[c]) || Collide(a[c], b[c]))
  {
    hide Payload, Comparable, SameCell, Collide, CanonicalTable, PresentIn;
    var cols := known[CanonicalTable(table, known.Keys).value];
    var ca, cb := HashedColumns(cols, a).value, HashedColumns(cols, b).value;
    PayloadNames(ca, a);
    PayloadNames(cb, b);
    if Payload(ca, a) == Payload(cb, b) {
      assert ca == cb;
      forall c | c in cols.optional ensures c in a <==> c in b {
        assert c in ca <==> c in cb;
      }
    }
    if forall c | c in cols.optional :: c in a <==> c in b {
      PresentSame(cols.optional, a, b);
      assert ca == cb;
      SameRowSamePayload(ca, a, b);
    }
  }

  /** A stream table and its shadow table hash every row alike. */
  lemma ShadowHashesAlike(table: string, known: map<string, HashColumns>, row: map<string, Cell>)
    requires Trimmed("stream." + table) && "stream." + table !in known
    requires "stream_shadow." + table in known
    ensures RowPayload("stream." + table, known, row) == RowPayload("stream_shadow." + table, known, row)
    ensures CanonicalTable("stream." + table, known.Keys) == Some("stream_shadow." + table)
  {
    var plain, shadow := "stream." + table, "stream_shadow." + table;
    assert Trimmed(shadow) by {
      assert table == [] || shadow[|shadow| - 1] == plain[|plain| - 1];
    }
    StripOf([], plain);
    StripOf([], shadow);
    assert [] + plain == plain && [] + shadow == shadow;
    hide Strip, Trimmed;
    assert plain[..7] == "stream." && plain[7..] == table;
  }
}
