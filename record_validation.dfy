/**
  The record layer (src/pydantic_validation.py): every row of the dataset is
  normalised into an `AmazonOrder`, checked field by field, and the field
  errors of all rows are folded into one summary.
 */
module RecordValidation {
  import opened Wrappers

  // ---------------------------------------------------------------------------
  // Raw rows
  // ---------------------------------------------------------------------------

  /** A scalar as the data frame hands it over. Floating point is not modelled:
      a number is an integer, and NaN is a value of its own. */
  datatype Cell = Null | NaN | Text(text: string) | Num(n: int)

  /** One row, keyed by column name; a column the dataset lacks is not a key. */
  type Row = map<string, Cell>

  const ORDER_ID_COLUMN: string := "Order ID"
  const DATE_COLUMN: string := "Date"
  const STATUS_COLUMN: string := "Status"
  const FULFILMENT_COLUMN: string := "Fulfilment"
  const CURRENCY_COLUMN: string := "currency"
  const QTY_COLUMN: string := "Qty"
  const AMOUNT_COLUMN: string := "Amount"
  const SHIP_COUNTRY_COLUMN: string := "ship-country"

  /** The eight columns an order is built from, in the model's field order. */
  const COLUMNS: seq<string> := [ORDER_ID_COLUMN, DATE_COLUMN, STATUS_COLUMN, FULFILMENT_COLUMN,
                                 CURRENCY_COLUMN, QTY_COLUMN, AMOUNT_COLUMN, SHIP_COUNTRY_COLUMN]

  /** `row.get(column)`: the cell, or nothing when the column is missing. */
  function Get(row: Row, column: string): Option<Cell> {
    if column in row then Some(row[column]) else None
  }

  // ---------------------------------------------------------------------------
  // Value sets and the date pattern
  // ---------------------------------------------------------------------------

  const VALID_STATUSES: seq<string> := [
    "Cancelled",
    "Pending",
    "Pending - Waiting for Pick Up",
    "Shipped",
    "Shipped - Damaged",
    "Shipped - Delivered to Buyer",
    "Shipped - Lost in Transit",
    "Shipped - Out for Delivery",
    "Shipped - Picked Up",
    "Shipped - Rejected by Buyer",
    "Shipped - Returned to Seller",
    "Shipped - Returning to Seller",
    "Shipping"
  ]

  const VALID_FULFILMENT: seq<string> := ["Merchant", "Amazon"]
  const VALID_CURRENCIES: seq<string> := ["INR"]
  const VALID_COUNTRIES: seq<string> := ["IN"]

  /** The text of the date regular expression. */
  const DATE_REGEX_SOURCE: string := @"^\d{2}-\d{2}-\d{2}$"

  /** One position of a fixed-width pattern: `\d` or a literal character. */
  datatype PatternItem = Digit | Literal(c: char)

  /** The body of `DATE_REGEX_SOURCE` between its anchors. */
  const DATE_PATTERN: seq<PatternItem> :=
    [Digit, Digit, Literal('-'), Digit, Digit, Literal('-'), Digit, Digit]

  /** `\d`, restricted to the ASCII digits. */
  predicate IsDigit(c: char) {
    '0' <= c <= '9'
  }

  predicate ItemMatches(p: PatternItem, c: char) {
    match p
    case Digit => IsDigit(c)
    case Literal(l) => c == l
  }

  /** `re.match` of `^pat$` against `s`: the pattern is matched from the first
      character, and Python's `$` then accepts the end of the string or a single
      newline that ends it. */
  predicate MatchesToEnd(pat: seq<PatternItem>, s: string) {
    if pat == [] then s == "" || s == "\n"
    else s != "" && ItemMatches(pat[0], s[0]) && MatchesToEnd(pat[1..], s[1..])
  }

  /** A matched string is the pattern's width, or one more with a trailing newline,
      and every position matches its item. */
  lemma {:induction false} MatchesToEndIff(pat: seq<PatternItem>, s: string)
    ensures MatchesToEnd(pat, s) <==>
      && (|s| == |pat| || (|s| == |pat| + 1 && s[|pat|] == '\n'))
      && forall i :: 0 <= i < |pat| ==> ItemMatches(pat[i], s[i])
  {
    if pat != [] && s != "" {
      MatchesToEndIff(pat[1..], s[1..]);
      if |s| == |pat| || (|s| == |pat| + 1 && s[|pat|] == '\n') {
        if forall i :: 0 <= i < |pat| ==> ItemMatches(pat[i], s[i]) {
          forall i | 0 <= i < |pat| - 1 ensures ItemMatches(pat[1..][i], s[1..][i]) {
            assert pat[1..][i] == pat[i + 1] && s[1..][i] == s[i + 1];
          }
        }
        if ItemMatches(pat[0], s[0]) && forall i :: 0 <= i < |pat| - 1 ==> ItemMatches(pat[1..][i], s[1..][i]) {
          forall i | 0 <= i < |pat| ensures ItemMatches(pat[i], s[i]) {
            if i > 0 {
              assert pat[1..][i - 1] == pat[i] && s[1..][i - 1] == s[i];
            }
          }
        }
      }
    }
  }

  // ---------------------------------------------------------------------------
  // Whitespace and `str.strip`
  // ---------------------------------------------------------------------------

  /** The characters Python's `str.strip()` removes. */
  predicate IsSpace(c: char) {
    || c == ' '
    || '\t' <= c <= '\r'
    || '\U{1C}' <= c <= '\U{1F}'
    || c == '\U{85}'
    || c == '\U{A0}'
    || c == '\U{1680}'
    || '\U{2000}' <= c <= '\U{200A}'
    || c == '\U{2028}'
    || c == '\U{2029}'
    || c == '\U{202F}'
    || c == '\U{205F}'
    || c == '\U{3000}'
  }

  function StripLeading(s: string): string {
    if s != "" && IsSpace(s[0]) then StripLeading(s[1..]) else s
  }

  function StripTrailing(s: string): string {
    if s != "" && IsSpace(s[|s| - 1]) then StripTrailing(s[..|s| - 1]) else s
  }

  /** `s.strip()` */
  function Strip(s: string): string {
    StripTrailing(StripLeading(s))
  }

  lemma {:induction false} StripLeadingEmptyIff(s: string)
    ensures StripLeading(s) == "" <==> forall i :: 0 <= i < |s| ==> IsSpace(s[i])
  {
    if s != "" {
      StripLeadingEmptyIff(s[1..]);
      if IsSpace(s[0]) && forall i :: 0 <= i < |s| - 1 ==> IsSpace(s[1..][i]) {
        forall i | 0 <= i < |s| ensures IsSpace(s[i]) {
          if i > 0 {
            assert s[1..][i - 1] == s[i];
          }
        }
      }
    }
  }

  lemma {:induction false} StripLeadingStartsWithNonSpace(s: string)
    ensures StripLeading(s) == "" || !IsSpace(StripLeading(s)[0])
  {
    if s != "" && IsSpace(s[0]) {
      StripLeadingStartsWithNonSpace(s[1..]);
    }
  }

  /** Stripping trailing space empties a string that starts with a non-space
      character only if it was empty already. */
  lemma {:induction false} StripTrailingKeepsFirst(s: string)
    requires s != "" && !IsSpace(s[0])
    ensures StripTrailing(s) != ""
  {
    if IsSpace(s[|s| - 1]) {
      assert |s| > 1;
      StripTrailingKeepsFirst(s[..|s| - 1]);
    }
  }

  /** `s.strip() == ""` exactly when every character of `s` is whitespace. */
  lemma StripEmptyIff(s: string)
    ensures Strip(s) == "" <==> forall i :: 0 <= i < |s| ==> IsSpace(s[i])
  {
    StripLeadingEmptyIff(s);
    StripLeadingStartsWithNonSpace(s);
    if StripLeading(s) != "" {
      StripTrailingKeepsFirst(StripLeading(s));
    }
  }

  // ---------------------------------------------------------------------------
  // Normalisation of a raw row
  // ---------------------------------------------------------------------------

  /** `_safe`: `None` and NaN become absent; any other value passes unchanged. */
  function Safe(v: Option<Cell>): (r: Option<Cell>)
    ensures r == None <==> v == None || v == Some(Null) || v == Some(NaN)
    ensures r != None ==> r == v
  {
    match v
    case None => None
    case Some(Null) => None
    case Some(NaN) => None
    case Some(_) => v
  }

  /** Python's truth value of a string or a number. */
  predicate Truthy(c: Cell) {
    match c
    case Null => false
    case NaN => true
    case Text(t) => t != ""
    case Num(n) => n != 0
  }

  function DigitChar(d: nat): (c: char)
    requires d < 10
    ensures IsDigit(c) && c as int - '0' as int == d
  {
    ('0' as int + d) as char
  }

  /** Decimal digits of `n`, most significant first, without leading zeros. */
  function NatText(n: nat): (s: string)
    ensures s != ""
    ensures forall i :: 0 <= i < |s| ==> IsDigit(s[i])
    ensures n > 0 ==> s[0] != '0'
    decreases n
  {
    if n < 10 then [DigitChar(n)] else NatText(n / 10) + [DigitChar(n % 10)]
  }

  /** The number a string of decimal digits denotes. */
  function DigitsValue(s: string): nat
    requires forall i :: 0 <= i < |s| ==> IsDigit(s[i])
  {
    if s == "" then 0
    else
      assert IsDigit(s[|s| - 1]);
      DigitsValue(s[..|s| - 1]) * 10 + (s[|s| - 1] as int - '0' as int)
  }

  lemma {:induction false} NatTextRoundTrip(n: nat)
    ensures DigitsValue(NatText(n)) == n
    decreases n
  {
    if n >= 10 {
      NatTextRoundTrip(n / 10);
      var s := NatText(n);
      assert s[..|s| - 1] == NatText(n / 10);
    }
  }

  /** `str(n)` of an integer. */
  function DecimalText(n: int): string {
    if n < 0 then "-" + NatText(-n) else NatText(n)
  }

  /** `str(c)` of a cell. */
  function PyStr(c: Cell): string {
    match c
    case Null => "None"
    case NaN => "nan"
    case Text(t) => t
    case Num(n) => DecimalText(n)
  }

  /** `str(_safe(v) or "")`, how every textual field is read. */
  function TextOf(v: Option<Cell>): (s: string)
    ensures s == "" <==> v == None || v == Some(Null) || v == Some(NaN) || v == Some(Text("")) || v == Some(Num(0))
    ensures v.Some? && v.value.Text? ==> s == v.value.text
  {
    var c := Safe(v);
    if c.None? || !Truthy(c.value) then "" else PyStr(c.value)
  }

  /** A non-empty string of decimal digits. */
  predicate AllDigits(s: string) {
    s != "" && forall i :: 0 <= i < |s| ==> IsDigit(s[i])
  }

  /** An optional `+` or `-` sign followed by decimal digits, read as an integer. */
  /** The interpreter's default limit on the digits `int()` converts
      (`sys.int_info.default_max_str_digits`); longer digit text raises
      `ValueError`. */
  const MAX_STR_DIGITS: nat := 4300

  /** A run of decimal digits `int()` is willing to convert. */
  predicate DigitRun(s: string) {
    AllDigits(s) && |s| <= MAX_STR_DIGITS
  }

  function SignedValue(s: string): Option<int> {
    if s != "" && (s[0] == '+' || s[0] == '-') && DigitRun(s[1..]) then
      var magnitude: int := DigitsValue(s[1..]);
      Some(if s[0] == '-' then -magnitude else magnitude)
    else if DigitRun(s) then
      Some(DigitsValue(s))
    else
      None
  }

  /** The characters `int()` skips around the digits: the whitespace of
      `str.strip()` except the separators U+001C to U+001F, which `int()`
      leaves in place (only non-ASCII whitespace is turned into a space before
      the ASCII whitespace is skipped). */
  predicate IsIntSpace(c: char) {
    IsSpace(c) && !('\U{1C}' <= c <= '\U{1F}')
  }

  function IntStripLeading(s: string): string {
    if s != "" && IsIntSpace(s[0]) then IntStripLeading(s[1..]) else s
  }

  function IntStripTrailing(s: string): string {
    if s != "" && IsIntSpace(s[|s| - 1]) then IntStripTrailing(s[..|s| - 1]) else s
  }

  /** `int(t)` of a string: surrounding whitespace is ignored, then a signed
      run of at most `MAX_STR_DIGITS` decimal digits is its value; any other
      text raises `ValueError` (`None` here). */
  function IntText(t: string): Option<int> {
    SignedValue(IntStripTrailing(IntStripLeading(t)))
  }

  /** `int` reads back the text `str` gives an integer, for every integer
      whose digits are within the limit (where `str` itself stops). */
  lemma IntTextRoundTrip(n: int)
    requires |NatText(if n < 0 then -n else n)| <= MAX_STR_DIGITS
    ensures IntText(DecimalText(n)) == Some(n)
  {
    var s := DecimalText(n);
    var digits := NatText(if n < 0 then -n else n);
    NatTextRoundTrip(if n < 0 then -n else n);
    assert s[|s| - 1] == digits[|digits| - 1];
    assert IntStripLeading(s) == s;
    assert IntStripTrailing(s) == s;
    if n < 0 {
      assert s[1..] == digits;
    }
  }

  /** `int()` accepts padded and signed digits. */
  lemma IntTextAccepts()
    ensures IntText("3") == Some(3)
    ensures IntText(" -1 ") == Some(-1)
    ensures IntText("+12") == Some(12)
  {
    assert IntStripLeading(" -1 ") == IntStripLeading(" -1 "[1..]) == "-1 ";
    assert IntStripTrailing("-1 ") == IntStripTrailing("-1 "[..2]) == "-1";
    assert "-1"[1..] == "1";
    assert "+12"[1..] == "12";
    assert DigitsValue("12") == DigitsValue("1") * 10 + 2 by {
      assert "12"[..1] == "1";
    }
  }

  /** `int()` converts 4300 digits and refuses 4301. */
  lemma IntTextDigitLimit()
    ensures IntText(seq(MAX_STR_DIGITS, _ => '1')).Some?
    ensures IntText(seq(MAX_STR_DIGITS + 1, _ => '1')) == None
  {
    var longest := seq(MAX_STR_DIGITS, _ => '1');
    assert IntStripLeading(longest) == longest;
    assert IntStripTrailing(longest) == longest;
    var tooLong := seq(MAX_STR_DIGITS + 1, _ => '1');
    assert IntStripLeading(tooLong) == tooLong;
    assert IntStripTrailing(tooLong) == tooLong;
  }

  /** `int()` skips a non-ASCII space such as U+00A0 around the digits. */
  lemma IntTextSkipsNonAsciiSpace()
    ensures IntText("\U{A0}3\U{3000}") == Some(3)
  {
    var t := "\U{A0}3\U{3000}";
    assert IntStripLeading(t) == IntStripLeading(t[1..]) == "3\U{3000}";
    assert IntStripTrailing("3\U{3000}") == IntStripTrailing("3\U{3000}"[..1]) == "3";
  }

  /** `int()` rejects blank text, a lone sign, a decimal point, letters and
      digits next to an information separator such as U+001C, which
      `str.strip()` would remove. */
  lemma IntTextRejects()
    ensures IntText("") == None && IntText("  ") == None && IntText("-") == None
    ensures IntText("abc") == None && IntText("3.0") == None
    ensures IntText("\U{1C}3") == None && Strip("\U{1C}3") == "3"
  {
    assert IntStripLeading("  ") == IntStripLeading("  "[1..]) == IntStripLeading(" "[1..]) == "";
    assert IntStripLeading("\U{1C}3") == "\U{1C}3";
    assert IntStripTrailing("\U{1C}3") == "\U{1C}3";
    assert !IsDigit("\U{1C}3"[0]);
    assert StripLeading("\U{1C}3") == StripLeading("\U{1C}3"[1..]) == "3";
    assert !AllDigits("abc") by {
      assert !IsDigit("abc"[0]);
    }
    assert !AllDigits("3.0") by {
      assert !IsDigit("3.0"[1]);
    }
  }

  /** What the record layer needs of a row so that it does not crash:
      `int(row.get("Qty", 0))` needs a number, integer text or a missing
      column (a null raises `TypeError`, NaN and other text raise
      `ValueError`), and the amount is not text when it is present. */
  predicate WellTyped(row: Row) {
    && (QTY_COLUMN in row ==>
          || row[QTY_COLUMN].Num?
          || (row[QTY_COLUMN].Text? && IntText(row[QTY_COLUMN].text).Some?))
    && (AMOUNT_COLUMN in row ==> !row[AMOUNT_COLUMN].Text?)
  }

  /** Which Qty cells the record layer can read: a null, a NaN and text that
      is not an integer crash it; integer text and numbers do not. */
  lemma QtyCellsReadable(row: Row)
    ensures !WellTyped(row[QTY_COLUMN := Null])
    ensures !WellTyped(row[QTY_COLUMN := NaN])
    ensures !WellTyped(row[QTY_COLUMN := Text("abc")])
    ensures !WellTyped(row[QTY_COLUMN := Text("\U{1C}3")])
    ensures !WellTyped(row[QTY_COLUMN := Text(seq(MAX_STR_DIGITS + 1, _ => '1'))])
    ensures WellTyped(map[QTY_COLUMN := Text(" -1 ")])
    ensures WellTyped(map[QTY_COLUMN := Num(-1)])
  {
    IntTextAccepts();
    IntTextRejects();
    IntTextDigitLimit();
  }

  /** The row as the `AmazonOrder` model receives it. */
  datatype AmazonOrder = AmazonOrder(
    orderId: string,
    date: string,
    status: string,
    fulfilment: string,
    currency: string,
    qty: int,
    amount: Option<int>,
    shipCountry: string)

  function QtyOf(row: Row): int
    requires WellTyped(row)
  {
    var c := Get(row, QTY_COLUMN).GetOr(Num(0));
    if c.Num? then c.n else IntText(c.text).value
  }

  function AmountOf(row: Row): Option<int>
    requires WellTyped(row)
  {
    match Safe(Get(row, AMOUNT_COLUMN))
    case None => None
    case Some(c) => Some(c.n)
  }

  function Normalise(row: Row): AmazonOrder
    requires WellTyped(row)
  {
    AmazonOrder(
      TextOf(Get(row, ORDER_ID_COLUMN)),
      TextOf(Get(row, DATE_COLUMN)),
      TextOf(Get(row, STATUS_COLUMN)),
      TextOf(Get(row, FULFILMENT_COLUMN)),
      TextOf(Get(row, CURRENCY_COLUMN)),
      QtyOf(row),
      AmountOf(row),
      TextOf(Get(row, SHIP_COUNTRY_COLUMN)))
  }

  /** Two rows that agree on every column but one text column, and read that
      one column to the same string, are read as the same order. */
  lemma ReadAlike(r1: Row, r2: Row, column: string)
    requires WellTyped(r1) && WellTyped(r2)
    requires column != QTY_COLUMN && column != AMOUNT_COLUMN
    requires forall c :: c != column ==> Get(r1, c) == Get(r2, c)
    requires TextOf(Get(r1, column)) == TextOf(Get(r2, column))
    ensures Normalise(r1) == Normalise(r2)
  {
  }

  /** A missing column, a null, a NaN and an empty string are read identically. */
  lemma MissingIsEmpty(row: Row, column: string)
    requires WellTyped(row)
    requires column != QTY_COLUMN && column != AMOUNT_COLUMN
    ensures var empty := Normalise(row - {column});
      && Normalise(row[column := Text("")]) == empty
      && Normalise(row[column := Null]) == empty
      && Normalise(row[column := NaN]) == empty
  {
    var others := row - {column};
    assert forall c :: c != column ==> Get(row[column := Text("")], c) == Get(others, c);
    ReadAlike(row[column := Text("")], others, column);
    assert forall c :: c != column ==> Get(row[column := Null], c) == Get(others, c);
    ReadAlike(row[column := Null], others, column);
    assert forall c :: c != column ==> Get(row[column := NaN], c) == Get(others, c);
    ReadAlike(row[column := NaN], others, column);
  }

  /** A missing Qty column reads as 0, which passes its check; an absent,
      null or NaN amount reads as no amount, which passes its check too. */
  lemma DefaultsForMissingNumbers(row: Row)
    requires WellTyped(row)
    ensures QTY_COLUMN !in row ==> Normalise(row).qty == 0 && QtyValid(Normalise(row).qty)
    ensures (AMOUNT_COLUMN !in row || row[AMOUNT_COLUMN] == Null || row[AMOUNT_COLUMN] == NaN)
            <==> Normalise(row).amount == None
    ensures Normalise(row).amount == None ==> AmountValid(Normalise(row).amount)
    ensures AMOUNT_COLUMN in row && row[AMOUNT_COLUMN].Num? ==> Normalise(row).amount == Some(row[AMOUNT_COLUMN].n)
  {
  }

  /** A numeric Qty is read as it is, and a text Qty as `int()` parses it. */
  lemma QtyRead(row: Row)
    requires WellTyped(row)
    ensures QTY_COLUMN in row && row[QTY_COLUMN].Num? ==> Normalise(row).qty == row[QTY_COLUMN].n
    ensures QTY_COLUMN in row && row[QTY_COLUMN].Text? ==> Some(Normalise(row).qty) == IntText(row[QTY_COLUMN].text)
  {
  }

  /** Qty fails exactly below zero; a present amount fails exactly below zero
      and an absent one passes. */
  lemma NumberChecks(q: int, a: Option<int>)
    ensures QtyValid(q) <==> q >= 0
    ensures AmountValid(a) <==> a == None || a.value >= 0
    ensures QtyValid(0) && !QtyValid(-1) && AmountValid(None) && AmountValid(Some(0)) && !AmountValid(Some(-1))
  {
  }

  // ---------------------------------------------------------------------------
  // The field checks of `AmazonOrder`
  // ---------------------------------------------------------------------------

  /** `order_id_not_empty` */
  predicate OrderIdValid(v: string) {
    !(v == "" || Strip(v) == "")
  }

  /** `date_format` */
  predicate DateValid(v: string) {
    MatchesToEnd(DATE_PATTERN, v)
  }

  /** `status_valid` */
  predicate StatusValid(v: string) {
    v in VALID_STATUSES
  }

  /** `fulfilment_valid` */
  predicate FulfilmentValid(v: string) {
    v in VALID_FULFILMENT
  }

  /** `currency_valid` */
  predicate CurrencyValid(v: string) {
    v in VALID_CURRENCIES
  }

  /** `qty_non_negative` */
  predicate QtyValid(v: int) {
    !(v < 0)
  }

  /** `amount_non_negative` */
  predicate AmountValid(v: Option<int>) {
    !(v.Some? && v.value < 0)
  }

  /** `ship_country_valid` */
  predicate ShipCountryValid(v: string) {
    v in VALID_COUNTRIES
  }

  /** The order id is rejected exactly when it is empty or all whitespace. */
  lemma OrderIdValidIff(v: string)
    ensures OrderIdValid(v) <==> exists i :: 0 <= i < |v| && !IsSpace(v[i])
  {
    StripEmptyIff(v);
  }

  /** A date is two digits, a hyphen, two digits, a hyphen and two digits,
      optionally followed by one newline. */
  lemma DateValidIff(v: string)
    ensures DateValid(v) <==>
      && (|v| == 8 || (|v| == 9 && v[8] == '\n'))
      && IsDigit(v[0]) && IsDigit(v[1]) && v[2] == '-'
      && IsDigit(v[3]) && IsDigit(v[4]) && v[5] == '-'
      && IsDigit(v[6]) && IsDigit(v[7])
  {
    MatchesToEndIff(DATE_PATTERN, v);
    if |v| >= 8 {
      assert ItemMatches(DATE_PATTERN[0], v[0]) == IsDigit(v[0]);
      assert ItemMatches(DATE_PATTERN[1], v[1]) == IsDigit(v[1]);
      assert ItemMatches(DATE_PATTERN[2], v[2]) == (v[2] == '-');
      assert ItemMatches(DATE_PATTERN[3], v[3]) == IsDigit(v[3]);
      assert ItemMatches(DATE_PATTERN[4], v[4]) == IsDigit(v[4]);
      assert ItemMatches(DATE_PATTERN[5], v[5]) == (v[5] == '-');
      assert ItemMatches(DATE_PATTERN[6], v[6]) == IsDigit(v[6]);
      assert ItemMatches(DATE_PATTERN[7], v[7]) == IsDigit(v[7]);
    }
  }

  lemma DateExamples()
    ensures DateValid("04-25-22")
    ensures DateValid("04-25-22\n")
    ensures !DateValid("invalid-date")
    ensures !DateValid("4-25-22")
    ensures !DateValid("04/25/22")
    ensures !DateValid("04-25-2022")
  {
    DateValidIff("04-25-22");
    DateValidIff("04-25-22\n");
    DateValidIff("invalid-date");
    DateValidIff("4-25-22");
    DateValidIff("04/25/22");
    DateValidIff("04-25-2022");
  }

  /** Membership is exact: another capitalisation of an accepted value is rejected. */
  lemma MembershipExamples()
    ensures StatusValid("Shipped") && !StatusValid("shipped") && !StatusValid("Shipped ")
    ensures FulfilmentValid("Amazon") && !FulfilmentValid("amazon")
    ensures CurrencyValid("INR") && !CurrencyValid("USD") && !CurrencyValid("")
    ensures ShipCountryValid("IN") && !ShipCountryValid("US") && !ShipCountryValid("in")
  {
  }

  // ---------------------------------------------------------------------------
  // Field errors of one row
  // ---------------------------------------------------------------------------

  datatype Field = OrderId | Date | Status | Fulfilment | Currency | Qty | Amount | ShipCountry

  /** The fields of `AmazonOrder` in declaration order. */
  const FIELDS: seq<Field> := [OrderId, Date, Status, Fulfilment, Currency, Qty, Amount, ShipCountry]

  /** The input a field check was given. */
  datatype Input = TextInput(text: string) | IntInput(value: int) | NoInput

  /** One field-level violation: the row number it is tagged with, the field and its input. */
  datatype FieldError = FieldError(row: int, field: Field, input: Input)

  predicate FieldValid(o: AmazonOrder, f: Field) {
    match f
    case OrderId => OrderIdValid(o.orderId)
    case Date => DateValid(o.date)
    case Status => StatusValid(o.status)
    case Fulfilment => FulfilmentValid(o.fulfilment)
    case Currency => CurrencyValid(o.currency)
    case Qty => QtyValid(o.qty)
    case Amount => AmountValid(o.amount)
    case ShipCountry => ShipCountryValid(o.shipCountry)
  }

  function InputOf(o: AmazonOrder, f: Field): Input {
    match f
    case OrderId => TextInput(o.orderId)
    case Date => TextInput(o.date)
    case Status => TextInput(o.status)
    case Fulfilment => TextInput(o.fulfilment)
    case Currency => TextInput(o.currency)
    case Qty => IntInput(o.qty)
    case Amount => if o.amount.Some? then IntInput(o.amount.value) else NoInput
    case ShipCountry => TextInput(o.shipCountry)
  }

  /** `FIELDS` lists every field, each once. */
  lemma FieldsListed()
    ensures forall f: Field :: f in FIELDS
    ensures Distinct(FIELDS)
  {
    forall f: Field ensures f in FIELDS {
      match f
      case OrderId => assert FIELDS[0] == f;
      case Date => assert FIELDS[1] == f;
      case Status => assert FIELDS[2] == f;
      case Fulfilment => assert FIELDS[3] == f;
      case Currency => assert FIELDS[4] == f;
      case Qty => assert FIELDS[5] == f;
      case Amount => assert FIELDS[6] == f;
      case ShipCountry => assert FIELDS[7] == f;
    }
  }

  /** An order that passes all eight checks. */
  predicate OrderValid(o: AmazonOrder) {
    forall f: Field :: FieldValid(o, f)
  }

  predicate Distinct(fields: seq<Field>) {
    forall i, j :: 0 <= i < j < |fields| ==> fields[i] != fields[j]
  }

  /** The errors the checks of `fields` raise on `o`, tagged with `row`, in
      the order of `fields`. */
  function FieldErrors(o: AmazonOrder, fields: seq<Field>, row: int): seq<FieldError> {
    if fields == [] then []
    else
      var f := fields[0];
      (if FieldValid(o, f) then [] else [FieldError(row, f, InputOf(o, f))]) + FieldErrors(o, fields[1..], row)
  }

  /** One error per failing field of `fields` and none for a passing one. */
  lemma {:induction false} FieldErrorsSpec(o: AmazonOrder, fields: seq<Field>, row: int)
    requires Distinct(fields)
    ensures var errs := FieldErrors(o, fields, row);
      && |errs| <= |fields|
      && (errs == [] <==> forall f :: f in fields ==> FieldValid(o, f))
      && (forall e :: e in errs ==>
            e.row == row && e.field in fields && !FieldValid(o, e.field) && e.input == InputOf(o, e.field))
      && (forall f :: f in fields && !FieldValid(o, f) ==> FieldError(row, f, InputOf(o, f)) in errs)
      && (forall i, j :: 0 <= i < j < |errs| ==> errs[i].field != errs[j].field)
  {
    if fields != [] {
      var f := fields[0];
      FieldErrorsSpec(o, fields[1..], row);
      var rest := FieldErrors(o, fields[1..], row);
      assert forall e :: e in rest ==> e.field != f by {
        assert f !in fields[1..];
      }
      assert forall g :: g in fields <==> g == f || g in fields[1..];
    }
  }

  /** Every error a row raises (`AmazonOrder(**...)`'s `ValidationError`),
      the checks running in field declaration order. */
  function RowErrors(o: AmazonOrder, row: int): seq<FieldError> {
    FieldErrors(o, FIELDS, row)
  }

  /** A row raises one error per failing field and none for a passing one,
      each tagged with the row number and the field's input; it raises none
      exactly when the order is valid. */
  lemma RowErrorsSpec(o: AmazonOrder, row: int)
    ensures var errs := RowErrors(o, row);
      && (errs == [] <==> OrderValid(o))
      && |errs| <= |FIELDS|
      && (forall e :: e in errs ==> e.row == row && !FieldValid(o, e.field) && e.input == InputOf(o, e.field))
      && (forall f :: !FieldValid(o, f) ==> FieldError(row, f, InputOf(o, f)) in errs)
      && (forall i, j :: 0 <= i < j < |errs| ==> errs[i].field != errs[j].field)
  {
    FieldsListed();
    FieldErrorsSpec(o, FIELDS, row);
  }

  lemma {:induction false} FieldErrorsSingle(o: AmazonOrder, fields: seq<Field>, f: Field, row: int)
    requires Distinct(fields) && f in fields
    requires !FieldValid(o, f)
    requires forall g :: g in fields && g != f ==> FieldValid(o, g)
    ensures FieldErrors(o, fields, row) == [FieldError(row, f, InputOf(o, f))]
  {
    if fields[0] != f {
      assert fields == [fields[0]] + fields[1..];
      FieldErrorsSingle(o, fields[1..], f, row);
    } else {
      assert f !in fields[1..];
      FieldErrorsSpec(o, fields[1..], row);
    }
  }

  /** A row whose only defect is one field raises exactly one error, for that field. */
  lemma SingleFailingField(o: AmazonOrder, f: Field, row: int)
    requires !FieldValid(o, f)
    requires forall g :: g != f ==> FieldValid(o, g)
    ensures RowErrors(o, row) == [FieldError(row, f, InputOf(o, f))]
  {
    FieldsListed();
    FieldErrorsSingle(o, FIELDS, f, row);
  }

  // ---------------------------------------------------------------------------
  // The dataset
  // ---------------------------------------------------------------------------

  /** Every row can be read without crashing. */
  predicate Loadable(rows: seq<Row>) {
    forall i :: 0 <= i < |rows| ==> WellTyped(rows[i])
  }

  /** Each row of the dataset as the order it is validated as. */
  function NormaliseAll(rows: seq<Row>): (orders: seq<AmazonOrder>)
    requires Loadable(rows)
    ensures |orders| == |rows|
    ensures forall i :: 0 <= i < |rows| ==> orders[i] == Normalise(rows[i])
  {
    seq(|rows|, i requires 0 <= i < |rows| && WellTyped(rows[i]) => Normalise(rows[i]))
  }

  /** The reported line of row `index`: one for the header, one for 0-based indexing. */
  function RowNumber(index: int): int {
    index + 2
  }

  /** The errors of each order, tagged with its row number. */
  function PerRowErrors(orders: seq<AmazonOrder>): (perRow: seq<seq<FieldError>>)
    ensures |perRow| == |orders|
    ensures forall i :: 0 <= i < |orders| ==> perRow[i] == RowErrors(orders[i], RowNumber(i))
  {
    seq(|orders|, i requires 0 <= i < |orders| => RowErrors(orders[i], RowNumber(i)))
  }

  /** Each row's errors carry that row's number. */
  predicate TaggedByRow(perRow: seq<seq<FieldError>>) {
    forall i, e :: 0 <= i < |perRow| && e in perRow[i] ==> e.row == RowNumber(i)
  }

  lemma PerRowErrorsTagged(orders: seq<AmazonOrder>)
    ensures TaggedByRow(PerRowErrors(orders))
  {
    forall i | 0 <= i < |orders| {
      RowErrorsSpec(orders[i], RowNumber(i));
    }
  }

  /** The errors of all rows, appended row after row. */
  function Flatten(perRow: seq<seq<FieldError>>): seq<FieldError>
    decreases |perRow|
  {
    if perRow == [] then [] else Flatten(perRow[..|perRow| - 1]) + perRow[|perRow| - 1]
  }

  lemma FlattenWhole(perRow: seq<seq<FieldError>>)
    ensures Flatten(perRow[..|perRow|]) == Flatten(perRow)
  {
    assert perRow[..|perRow|] == perRow;
  }

  /** The `errors` list of the record layer. */
  function DatasetErrors(orders: seq<AmazonOrder>): seq<FieldError> {
    Flatten(PerRowErrors(orders))
  }

  lemma TaggedByRowPrefix(perRow: seq<seq<FieldError>>)
    requires TaggedByRow(perRow) && perRow != []
    ensures TaggedByRow(perRow[..|perRow| - 1])
  {
    var prefix := perRow[..|perRow| - 1];
    forall i, e: FieldError | 0 <= i < |prefix| && e in prefix[i] ensures e.row == RowNumber(i) {
      assert prefix[i] == perRow[i];
    }
  }

  /** Every error carries the number of a row of the dataset, and the errors
      come in row order. */
  lemma {:induction false} FlattenInRowOrder(perRow: seq<seq<FieldError>>)
    requires TaggedByRow(perRow)
    ensures forall e :: e in Flatten(perRow) ==> RowNumber(0) <= e.row <= RowNumber(|perRow| - 1)
    ensures forall i, j :: 0 <= i < j < |Flatten(perRow)| ==> Flatten(perRow)[i].row <= Flatten(perRow)[j].row
    decreases |perRow|
  {
    if perRow != [] {
      var before := Flatten(perRow[..|perRow| - 1]);
      var last := perRow[|perRow| - 1];
      TaggedByRowPrefix(perRow);
      FlattenInRowOrder(perRow[..|perRow| - 1]);
      var errs := before + last;
      assert Flatten(perRow) == errs;
      forall i, j | 0 <= i < j < |errs| ensures errs[i].row <= errs[j].row {
        if j < |before| {
        } else if i < |before| {
          assert before[i] in before && last[j - |before|] in last;
        } else {
          assert last[i - |before|] in last && last[j - |before|] in last;
        }
      }
    }
  }

  /** The errors of `errs` tagged with row number `n`, in order. */
  function ErrorsTagged(errs: seq<FieldError>, n: int): seq<FieldError> {
    if errs == [] then []
    else ErrorsTagged(errs[..|errs| - 1], n) + (if errs[|errs| - 1].row == n then [errs[|errs| - 1]] else [])
  }

  lemma {:induction false} ErrorsTaggedAppend(a: seq<FieldError>, b: seq<FieldError>, n: int)
    ensures ErrorsTagged(a + b, n) == ErrorsTagged(a, n) + ErrorsTagged(b, n)
    decreases |b|
  {
    if b != [] {
      assert (a + b)[..|a + b| - 1] == a + b[..|b| - 1];
      ErrorsTaggedAppend(a, b[..|b| - 1], n);
    } else {
      assert a + b == a;
    }
  }

  lemma {:induction false} ErrorsTaggedAll(errs: seq<FieldError>, n: int)
    requires forall e :: e in errs ==> e.row == n
    ensures ErrorsTagged(errs, n) == errs
    decreases |errs|
  {
    if errs != [] {
      ErrorsTaggedAll(errs[..|errs| - 1], n);
      assert errs == errs[..|errs| - 1] + [errs[|errs| - 1]];
    }
  }

  lemma {:induction false} ErrorsTaggedNone(errs: seq<FieldError>, n: int)
    requires forall e :: e in errs ==> e.row != n
    ensures ErrorsTagged(errs, n) == []
    decreases |errs|
  {
    if errs != [] {
      ErrorsTaggedNone(errs[..|errs| - 1], n);
    }
  }

  /** The errors tagged with row `index`'s number are exactly that row's own
      errors: nothing of one row is lost or attributed to another. */
  lemma {:induction false} FlattenOfRow(perRow: seq<seq<FieldError>>, index: int)
    requires TaggedByRow(perRow)
    requires 0 <= index < |perRow|
    ensures ErrorsTagged(Flatten(perRow), RowNumber(index)) == perRow[index]
    decreases |perRow|
  {
    var prefix := perRow[..|perRow| - 1];
    var before := Flatten(prefix);
    var last := perRow[|perRow| - 1];
    TaggedByRowPrefix(perRow);
    FlattenInRowOrder(prefix);
    ErrorsTaggedAppend(before, last, RowNumber(index));
    if index == |perRow| - 1 {
      ErrorsTaggedNone(before, RowNumber(index));
      ErrorsTaggedAll(last, RowNumber(index));
    } else {
      FlattenOfRow(prefix, index);
      assert prefix[index] == perRow[index];
      ErrorsTaggedNone(last, RowNumber(index));
    }
  }

  /** The distinct row numbers among `errs`. */
  function ErrorRowNumbers(errs: seq<FieldError>): set<int> {
    set e | e in errs :: e.row
  }

  /** The number of rows that raised at least one error. */
  function RowsWithErrors(perRow: seq<seq<FieldError>>): (k: nat)
    ensures k <= |perRow|
    decreases |perRow|
  {
    if perRow == [] then 0
    else RowsWithErrors(perRow[..|perRow| - 1]) + (if perRow[|perRow| - 1] == [] then 0 else 1)
  }

  /** The distinct row numbers among the errors count the rows that raised
      errors, each once, and no more of them than there are errors. */
  lemma {:induction false} DistinctRowsAreRowsWithErrors(perRow: seq<seq<FieldError>>)
    requires TaggedByRow(perRow)
    ensures |ErrorRowNumbers(Flatten(perRow))| == RowsWithErrors(perRow)
    ensures RowsWithErrors(perRow) <= |Flatten(perRow)|
    decreases |perRow|
  {
    if perRow != [] {
      var prefix := perRow[..|perRow| - 1];
      var before := Flatten(prefix);
      var n := RowNumber(|perRow| - 1);
      var last := perRow[|perRow| - 1];
      TaggedByRowPrefix(perRow);
      DistinctRowsAreRowsWithErrors(prefix);
      FlattenInRowOrder(prefix);
      assert Flatten(perRow) == before + last;
      assert n !in ErrorRowNumbers(before);
      if last == [] {
        assert ErrorRowNumbers(before + last) == ErrorRowNumbers(before);
      } else {
        assert forall e :: e in last ==> e.row == n;
        assert last[0] in last;
        assert ErrorRowNumbers(before + last) == ErrorRowNumbers(before) + {n};
      }
    }
  }

  /** No error at all exactly when no row raised one. */
  lemma {:induction false} FlattenEmptyIff(perRow: seq<seq<FieldError>>)
    ensures Flatten(perRow) == [] <==> forall i :: 0 <= i < |perRow| ==> perRow[i] == []
    decreases |perRow|
  {
    if perRow != [] {
      var prefix := perRow[..|perRow| - 1];
      FlattenEmptyIff(prefix);
      assert forall i :: 0 <= i < |prefix| ==> prefix[i] == perRow[i];
    }
  }

  // ---------------------------------------------------------------------------
  // The summary
  // ---------------------------------------------------------------------------

  datatype RecordSummary = RecordSummary(
    totalRows: nat,
    validRows: int,
    invalidRows: nat,
    errorCount: nat,
    errors: seq<FieldError>,
    overallSuccess: bool)

  /** What `run_pydantic_validation` reports for the orders read from the rows. */
  function Summarise(orders: seq<AmazonOrder>): (s: RecordSummary)
    ensures s.totalRows == |orders|
    ensures s.errors == DatasetErrors(orders) && s.errorCount == |s.errors|
    ensures s.invalidRows == RowsWithErrors(PerRowErrors(orders))
    ensures s.validRows + s.invalidRows == s.totalRows
    ensures 0 <= s.validRows && s.invalidRows <= s.errorCount
    ensures s.overallSuccess <==> forall i :: 0 <= i < |orders| ==> OrderValid(orders[i])
  {
    var perRow := PerRowErrors(orders);
    var errors := Flatten(perRow);
    var invalid := |ErrorRowNumbers(errors)|;
    PerRowErrorsTagged(orders);
    DistinctRowsAreRowsWithErrors(perRow);
    FlattenEmptyIff(perRow);
    forall i | 0 <= i < |orders| {
      RowErrorsSpec(orders[i], RowNumber(i));
    }
    RecordSummary(|orders|, |orders| - invalid, invalid, |errors|, errors, |errors| == 0)
  }

  lemma EmptyDatasetSucceeds()
    ensures Summarise([]) == RecordSummary(0, 0, 0, 0, [], true)
  {
  }

  /** The errors of the first `n` rows, appended row by row as
      `run_pydantic_validation` collects them. */
  function RowsErrors(rows: seq<Row>, n: nat): seq<FieldError>
    requires Loadable(rows) && n <= |rows|
  {
    if n == 0 then [] else RowsErrors(rows, n - 1) + RowErrors(Normalise(rows[n - 1]), RowNumber(n - 1))
  }

  /** Collecting the first `n` rows yields the errors of those rows. */
  lemma {:induction false} RowsErrorsPrefix(rows: seq<Row>, n: nat)
    requires Loadable(rows) && n <= |rows|
    ensures RowsErrors(rows, n) == Flatten(PerRowErrors(NormaliseAll(rows))[..n])
  {
    if n > 0 {
      RowsErrorsPrefix(rows, n - 1);
      var perRow := PerRowErrors(NormaliseAll(rows));
      assert perRow[..n][..n - 1] == perRow[..n - 1];
    }
  }

  /** Collecting every row yields the dataset's errors. */
  lemma RowsErrorsAreDatasetErrors(rows: seq<Row>)
    requires Loadable(rows)
    ensures RowsErrors(rows, |rows|) == DatasetErrors(NormaliseAll(rows))
  {
    RowsErrorsPrefix(rows, |rows|);
    FlattenWhole(PerRowErrors(NormaliseAll(rows)));
  }

  /** The loop of `run_pydantic_validation`: read each row as an order,
      validate it and append its errors. */
  method CollectErrors(rows: seq<Row>) returns (errors: seq<FieldError>)
    requires Loadable(rows)
    ensures errors == RowsErrors(rows, |rows|)
  {
    errors := [];
    var idx := 0;
    while idx < |rows|
      invariant 0 <= idx <= |rows|
      invariant errors == RowsErrors(rows, idx)
    {
      var order := Normalise(rows[idx]);
      errors := errors + RowErrors(order, RowNumber(idx));
      idx := idx + 1;
    }
  }

  /** `run_pydantic_validation`: collect the errors of every row and summarise them. */
  method RunPydanticValidation(rows: seq<Row>) returns (summary: RecordSummary)
    requires Loadable(rows)
    ensures summary == Summarise(NormaliseAll(rows))
    ensures summary.validRows + summary.invalidRows == summary.totalRows == |rows|
    ensures summary.overallSuccess <==> summary.errors == []
  {
    var errors := CollectErrors(rows);
    RowsErrorsAreDatasetErrors(rows);
    var total := |rows|;
    var invalidRows := |ErrorRowNumbers(errors)|;
    var validRows := total - invalidRows;
    summary := RecordSummary(total, validRows, invalidRows, |errors|, errors, |errors| == 0);
  }
}
