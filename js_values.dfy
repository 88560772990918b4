/** The JavaScript values that flow through the table: the cells of a row, the conversion of
    numbers to and from decimal text, and the coercions (`ToNumber`, `ToString`, truthiness)
    that the table's comparator relies on. */
module JsValues {

  datatype Option<+T> = None | Some(value: T)

  /** A table cell. Numbers are modelled as integers; `Obj` is the nested commit/deploy
      record, of which only `id` and `timestamp` are read. */
  datatype Cell =
    | Num(n: int)
    | Str(s: string)
    | Null
    | Undefined
    | Obj(id: int, timestamp: string)

  type Row = seq<Cell>

  /** `row[index]`: reading past either end yields `undefined`. */
  function CellAt(row: Row, index: int): Cell
  {
    if 0 <= index < |row| then row[index] else Undefined
  }

  /** JavaScript truthiness: `0`, `""`, `null` and `undefined` are falsy, objects truthy. */
  predicate Truthy(c: Cell)
  {
    match c
    case Num(n) => n != 0
    case Str(s) => s != ""
    case Null => false
    case Undefined => false
    case Obj(_, _) => true
  }

  // ---------------------------------------------------------------- decimal text

  predicate IsDigit(c: char)
  {
    '0' <= c <= '9'
  }

  predicate IsDigits(s: string)
  {
    forall k :: 0 <= k < |s| ==> IsDigit(s[k])
  }

  function DigitChar(d: nat): (c: char)
    requires d < 10
    ensures IsDigit(c)
  {
    ('0' as int + d) as char
  }

  function DigitValue(c: char): (d: nat)
    requires IsDigit(c)
    ensures d < 10 && DigitChar(d) == c
  {
    c as int - '0' as int
  }

  /** `String(n)` for a non-negative integer: its digits, most significant first, with no
      leading zero. */
  function NatToDecimal(n: nat): (s: string)
    ensures |s| > 0 && IsDigits(s)
    ensures s[0] == '0' ==> n == 0
    decreases n
  {
    if n < 10 then [DigitChar(n)] else NatToDecimal(n / 10) + [DigitChar(n % 10)]
  }

  /** The number a string of decimal digits denotes. */
  function DecimalValue(s: string): nat
    requires IsDigits(s)
  {
    if |s| == 0 then 0 else 10 * DecimalValue(s[..|s| - 1]) + DigitValue(s[|s| - 1])
  }

  lemma {:induction false} DecimalRoundTrip(n: nat)
    ensures DecimalValue(NatToDecimal(n)) == n
  {
    var s := NatToDecimal(n);
    if n >= 10 {
      DecimalRoundTrip(n / 10);
      assert s[..|s| - 1] == NatToDecimal(n / 10);
      assert DigitValue(s[|s| - 1]) == n % 10;
    } else {
      assert DigitValue(s[0]) == n;
    }
  }

  /** JavaScript's `String(i)` (and template-literal interpolation) of an integer. */
  function IntToString(i: int): (s: string)
    ensures |s| > 0 && (s[0] == '-' <==> i < 0)
  {
    if i < 0 then "-" + NatToDecimal(-i) else NatToDecimal(i)
  }

  /** Reads an optionally signed decimal integer; `None` for any other text. */
  function ParseInt(s: string): Option<int>
  {
    if |s| > 1 && s[0] == '-' && IsDigits(s[1..]) then Some(0 - DecimalValue(s[1..]) as int)
    else if |s| > 0 && IsDigits(s) then Some(DecimalValue(s))
    else None
  }

  /** Integer text has no `&` or `=` in it and reads back as the same integer. */
  lemma IntRoundTrip(i: int)
    ensures ParseInt(IntToString(i)) == Some(i)
    ensures '&' !in IntToString(i) && '=' !in IntToString(i)
  {
    var s := IntToString(i);
    if i < 0 {
      var d := NatToDecimal(-i);
      assert s == "-" + d;
      assert s[1..] == d;
      NoSeparators(d);
      DecimalRoundTrip(-i);
      assert ParseInt(s) == Some(0 - DecimalValue(d) as int);
    } else {
      NoSeparators(s);
      DecimalRoundTrip(i);
      assert s[0] != '-';
    }
  }

  /** Decimal digits contain neither query separator. */
  lemma NoSeparators(s: string)
    requires IsDigits(s)
    ensures '&' !in s && '=' !in s
  {
  }

  // ---------------------------------------------------------------- coercions

  /** `ToNumber` as used by the `-` operator; `None` stands for NaN. The empty string reads
      as 0 and a string of decimal digits as its value. */
  function ToNumber(c: Cell): Option<int>
  {
    match c
    case Num(n) => Some(n)
    case Null => Some(0)
    case Str(s) => if s == "" then Some(0) else if IsDigits(s) then Some(DecimalValue(s)) else None
    case Undefined => None
    case Obj(_, _) => None
  }

  /** `ToString`, as applied to the argument of `String.prototype.localeCompare`. */
  function ToStr(c: Cell): string
  {
    match c
    case Num(n) => IntToString(n)
    case Str(s) => s
    case Null => "null"
    case Undefined => "undefined"
    case Obj(_, _) => "[object Object]"
  }
}
