/** Python scalar values as the object-graph mapper sees them: their truthiness,
    their `repr()` and `str()` texts, and the in-place arithmetic the property
    recorder forwards to them. */
module PyValues {

  /** The Python exceptions the modelled code can raise. */
  datatype PyError =
    | TypeError      // an operator received operands of unsupported types
    | AttributeError // an attribute lookup found nothing
    | IndexError     // an index past the end of a list
    | ValueError     // an argument out of range, such as a year past 9999
    | OverflowError  // a timestamp out of the platform's range
    | OutsideModel   // the outcome depends on behaviour this model leaves out (floats, bytes, user classes)

  /** A computation that either returns a value or raises. */
  datatype Result<+T> = Ok(value: T) | Err(error: PyError) {
    predicate IsFailure() { Err? }

    function PropagateFailure<U>(): Result<U>
      requires Err?
    {
      Err(error)
    }

    function Extract(): T
      requires Ok?
    {
      value
    }
  }

  datatype Option<+T> = None | Some(value: T)

  /** A `datetime.date` or `datetime.datetime` value, carried by the three texts
      the mapper reads from it: `isoformat()`, `str()` and `repr()`. */
  datatype Moment = Moment(isoText: string, strText: string, reprText: string)

  /** The Python values a model property can hold. `OtherValue` stands for an
      instance of any other class (float, bytes, a user class); it carries its
      qualified class name, the qualified names of the classes between it and
      `object` in its method resolution order, and its texts. Its `isoText`
      is the `isoformat()` text, read only when the class derives from
      `datetime.date`. */
  datatype Scalar =
    | NoneValue
    | BoolValue(b: bool)
    | IntValue(i: int)
    | StrValue(s: string)
    | DateValue(date: Moment)
    | DateTimeValue(dateTime: Moment)
    | OtherValue(typeName: string, bases: seq<string>, isoText: string, strText: string, reprText: string, truthy: bool)

  /** No two entries share a name, as the keys of a dict or the fields of a
      dataclass do not. */
  predicate DistinctNames<T>(entries: seq<T>, name: T -> string) {
    forall i, j :: 0 <= i < j < |entries| ==> name(entries[i]) != name(entries[j])
  }

  /** Qualified names (`module.name`) of the classes in `type(v).__mro__`. */
  function Mro(v: Scalar): (r: seq<string>)
    ensures |r| >= 2 && r[|r| - 1] == "builtins.object"
  {
    match v
    case NoneValue => ["builtins.NoneType", "builtins.object"]
    case BoolValue(_) => ["builtins.bool", "builtins.int", "builtins.object"]
    case IntValue(_) => ["builtins.int", "builtins.object"]
    case StrValue(_) => ["builtins.str", "builtins.object"]
    case DateValue(_) => ["datetime.date", "builtins.object"]
    case DateTimeValue(_) => ["datetime.datetime", "datetime.date", "builtins.object"]
    case OtherValue(t, bases, _, _, _, _) => [t] + bases + ["builtins.object"]
  }

  /** `bool(v)`. */
  predicate Truthy(v: Scalar) {
    match v
    case NoneValue => false
    case BoolValue(b) => b
    case IntValue(i) => i != 0
    case StrValue(s) => |s| > 0
    case DateValue(_) => true
    case DateTimeValue(_) => true
    case OtherValue(_, _, _, _, _, t) => t
  }

  /** The integer view of a value: `int` and its subclass `bool`. */
  function AsInt(v: Scalar): Option<int> {
    match v
    case IntValue(i) => Some(i)
    case BoolValue(b) => Some(if b then 1 else 0)
    case _ => None
  }

  // ---------------------------------------------------------------------------
  // Decimal text of integers

  predicate IsDigit(c: char) {
    '0' <= c <= '9'
  }

  predicate AllDigits(s: string) {
    forall i :: 0 <= i < |s| ==> IsDigit(s[i])
  }

  function DigitChar(d: nat): (c: char)
    requires d < 10
    ensures IsDigit(c)
  {
    (('0' as int) + d) as char
  }

  function DigitValue(c: char): nat
    requires IsDigit(c)
  {
    (c as int) - ('0' as int)
  }

  /** Decimal digits of a natural number, most significant first, no leading zero. */
  function NatToDecimal(n: nat): (s: string)
    ensures |s| >= 1 && AllDigits(s)
    decreases n
  {
    if n < 10 then [DigitChar(n)] else NatToDecimal(n / 10) + [DigitChar(n % 10)]
  }

  /** Value of a string of decimal digits. */
  function DecimalToNat(s: string): nat
    requires AllDigits(s)
    decreases |s|
  {
    if |s| == 0 then 0 else 10 * DecimalToNat(s[..|s| - 1]) + DigitValue(s[|s| - 1])
  }

  lemma {:induction false} DecimalRoundTrip(n: nat)
    ensures DecimalToNat(NatToDecimal(n)) == n
    decreases n
  {
    if n >= 10 {
      var s := NatToDecimal(n / 10) + [DigitChar(n % 10)];
      assert s[..|s| - 1] == NatToDecimal(n / 10);
      DecimalRoundTrip(n / 10);
    }
  }

  /** `repr(i)` for an `int`. */
  function IntRepr(i: int): string {
    if i < 0 then "-" + NatToDecimal(-i) else NatToDecimal(i)
  }

  /** Reads back an optionally negative decimal integer. */
  function ParseInt(t: string): Option<int> {
    if |t| >= 2 && t[0] == '-' && AllDigits(t[1..]) then Some(0 - DecimalToNat(t[1..]) as int)
    else if |t| >= 1 && AllDigits(t) then Some(DecimalToNat(t))
    else None
  }

  lemma IntReprRoundTrip(i: int)
    ensures ParseInt(IntRepr(i)) == Some(i)
  {
    if i < 0 {
      var d := NatToDecimal(-i);
      assert IntRepr(i) == "-" + d;
      assert ("-" + d)[1..] == d;
      DecimalRoundTrip(-i);
      assert ParseInt("-" + d) == Some(0 - DecimalToNat(d) as int);
    } else {
      var d := NatToDecimal(i);
      assert IsDigit(d[0]);
      DecimalRoundTrip(i);
      assert ParseInt(d) == Some(DecimalToNat(d));
    }
  }

  // ---------------------------------------------------------------------------
  // repr() of str

  /** The quote CPython's `repr` picks: single, unless the text holds a single
      quote and no double quote. */
  function QuoteFor(s: string): (q: char)
    ensures q == '\'' || q == '"'
  {
    if '\'' in s && '"' !in s then '"' else '\''
  }

  function HexDigit(n: nat): (c: char)
    requires n < 16
  {
    if n < 10 then (('0' as int) + n) as char else (('a' as int) + n - 10) as char
  }

  /** Value of a lower-case hexadecimal digit, or -1. */
  function HexValue(c: char): int {
    if '0' <= c <= '9' then (c as int) - ('0' as int)
    else if 'a' <= c <= 'f' then (c as int) - ('a' as int) + 10
    else -1
  }

  /** A character that `repr` writes as a `\xNN` escape. */
  predicate IsHexEscaped(c: char) {
    c != '\t' && c != '\n' && c != '\r' && ((c as int) < 0x20 || (c as int) == 0x7f)
  }

  /** How `repr` writes one character inside a literal delimited by `q`. */
  function EscapeChar(c: char, q: char): string {
    if c == q || c == '\\' then ['\\', c]
    else if c == '\t' then "\\t"
    else if c == '\n' then "\\n"
    else if c == '\r' then "\\r"
    else if IsHexEscaped(c) then ['\\', 'x', HexDigit((c as int) / 16), HexDigit((c as int) % 16)]
    else [c]
  }

  function Escape(s: string, q: char): string
    decreases |s|
  {
    if |s| == 0 then "" else EscapeChar(s[0], q) + Escape(s[1..], q)
  }

  /** `repr(s)` for a `str`. */
  function StrRepr(s: string): string {
    var q := QuoteFor(s);
    [q] + Escape(s, q) + [q]
  }

  function Prepend(c: char, o: Option<string>): Option<string> {
    match o
    case Some(t) => Some([c] + t)
    case None => None
  }

  /** Reads the body of a string literal delimited by `q`, undoing the escapes;
      `None` when an unescaped delimiter or an unknown escape occurs. */
  function Unescape(t: string, q: char): Option<string>
    decreases |t|
  {
    if |t| == 0 then Some("")
    else if t[0] != '\\' then
      if t[0] == q then None else Prepend(t[0], Unescape(t[1..], q))
    else if |t| < 2 then None
    else if t[1] == '\\' || t[1] == q then Prepend(t[1], Unescape(t[2..], q))
    else if t[1] == 't' then Prepend('\t', Unescape(t[2..], q))
    else if t[1] == 'n' then Prepend('\n', Unescape(t[2..], q))
    else if t[1] == 'r' then Prepend('\r', Unescape(t[2..], q))
    else if t[1] == 'x' && |t| >= 4 && HexValue(t[2]) >= 0 && HexValue(t[3]) >= 0 then
      Prepend((HexValue(t[2]) * 16 + HexValue(t[3])) as char, Unescape(t[4..], q))
    else None
  }

  /** Reads back a quoted string literal. */
  function UnquoteStr(t: string): Option<string> {
    if |t| >= 2 && (t[0] == '\'' || t[0] == '"') && t[|t| - 1] == t[0]
    then Unescape(t[1..|t| - 1], t[0])
    else None
  }

  lemma HexRoundTrip(n: nat)
    requires n < 16
    ensures HexValue(HexDigit(n)) == n
  {
  }

  lemma {:induction false} UnescapeChar(c: char, q: char, rest: string)
    requires q == '\'' || q == '"'
    ensures Unescape(EscapeChar(c, q) + rest, q) == Prepend(c, Unescape(rest, q))
  {
    var t := EscapeChar(c, q) + rest;
    if c == q || c == '\\' {
      assert t[2..] == rest;
    } else if c == '\t' || c == '\n' || c == '\r' {
      assert t[2..] == rest;
    } else if IsHexEscaped(c) {
      var code := c as int;
      HexRoundTrip(code / 16);
      HexRoundTrip(code % 16);
      assert t[2] == HexDigit(code / 16) && t[3] == HexDigit(code % 16);
      assert (HexValue(t[2]) * 16 + HexValue(t[3])) as char == c;
      assert t[4..] == rest;
    } else {
      assert t[1..] == rest;
    }
  }

  lemma {:induction false} EscapeRoundTrip(s: string, q: char)
    requires q == '\'' || q == '"'
    ensures Unescape(Escape(s, q), q) == Some(s)
    decreases |s|
  {
    if |s| > 0 {
      var rest := Escape(s[1..], q);
      assert Escape(s, q) == EscapeChar(s[0], q) + rest;
      UnescapeChar(s[0], q, rest);
      EscapeRoundTrip(s[1..], q);
      assert Prepend(s[0], Some(s[1..])) == Some([s[0]] + s[1..]);
      assert [s[0]] + s[1..] == s;
    }
  }

  /** `repr` of a string is a closed literal that reads back to the string. */
  lemma StrReprRoundTrip(s: string)
    ensures UnquoteStr(StrRepr(s)) == Some(s)
  {
    var q := QuoteFor(s);
    var t := StrRepr(s);
    assert t[1..|t| - 1] == Escape(s, q);
    EscapeRoundTrip(s, q);
  }

  /** `isinstance(v, datetime.date)`: `datetime.date` is in the class
      hierarchy, as it is for `datetime.datetime` and any user subclass. */
  predicate IsDate(v: Scalar) {
    "datetime.date" in Mro(v)
  }

  /** `v.isoformat()` of a date instance. */
  function IsoText(v: Scalar): string
    requires IsDate(v)
  {
    match v
    case DateValue(m) => m.isoText
    case DateTimeValue(m) => m.isoText
    case OtherValue(_, _, iso, _, _, _) => iso
    case _ => ""
  }

  // ---------------------------------------------------------------------------
  // repr() and str()

  /** `repr(v)`. */
  function Repr(v: Scalar): string {
    match v
    case NoneValue => "None"
    case BoolValue(b) => if b then "True" else "False"
    case IntValue(i) => IntRepr(i)
    case StrValue(s) => StrRepr(s)
    case DateValue(m) => m.reprText
    case DateTimeValue(m) => m.reprText
    case OtherValue(_, _, _, _, r, _) => r
  }

  /** `str(v)`. */
  function Str(v: Scalar): string {
    match v
    case NoneValue => "None"
    case BoolValue(b) => if b then "True" else "False"
    case IntValue(i) => IntRepr(i)
    case StrValue(s) => s
    case DateValue(m) => m.strText
    case DateTimeValue(m) => m.strText
    case OtherValue(_, _, _, s, _, _) => s
  }

  // ---------------------------------------------------------------------------
  // Arithmetic behind `+=`, `-=` and `*=`

  datatype ArithOp = Add | Sub | Mul

  /** `s * n` for a string and an integer. */
  function Repeat(s: string, n: int): (r: string)
    ensures |r| == if n <= 0 then 0 else n * |s|
    decreases n
  {
    if n <= 0 then "" else s + Repeat(s, n - 1)
  }

  /** `s * n` is `s` over and over: copy `q` of `s` starts at `q * |s|`. */
  lemma {:induction false} RepeatCopies(s: string, n: int, q: nat, k: nat)
    requires q < n && k < |s|
    ensures q * |s| + k < |Repeat(s, n)| && Repeat(s, n)[q * |s| + k] == s[k]
    decreases q
  {
    var r := Repeat(s, n);
    assert r == s + Repeat(s, n - 1);
    if q > 0 {
      RepeatCopies(s, n - 1, q - 1, k);
      assert q * |s| + k == |s| + ((q - 1) * |s| + k);
    }
  }

  function IntArith(op: ArithOp, a: int, b: int): int {
    match op
    case Add => a + b
    case Sub => a - b
    case Mul => a * b
  }

  predicate IsMoment(v: Scalar) {
    v.DateValue? || v.DateTimeValue?
  }

  /** The Python binary operator `a op b` on two scalars. */
  function Arith(op: ArithOp, a: Scalar, b: Scalar): (r: Result<Scalar>)
    ensures AsInt(a).Some? && AsInt(b).Some? ==>
              r == Ok(IntValue(IntArith(op, AsInt(a).value, AsInt(b).value)))
    ensures op == Add && a.StrValue? && b.StrValue? ==> r == Ok(StrValue(a.s + b.s))
    ensures (a.NoneValue? || b.NoneValue?) && !a.OtherValue? && !b.OtherValue? ==> r == Err(TypeError)
    ensures op == Sub && (a.StrValue? || b.StrValue?) && !a.OtherValue? && !b.OtherValue? ==> r == Err(TypeError)
    ensures op == Add && a.StrValue? != b.StrValue? && !a.OtherValue? && !b.OtherValue? ==> r == Err(TypeError)
    ensures op == Mul && a.StrValue? && AsInt(b).Some? ==> r == Ok(StrValue(Repeat(a.s, AsInt(b).value)))
    ensures op == Mul && AsInt(a).Some? && b.StrValue? ==> r == Ok(StrValue(Repeat(b.s, AsInt(a).value)))
    ensures op == Mul && a.StrValue? && b.StrValue? ==> r == Err(TypeError)
  {
    if a.OtherValue? || b.OtherValue? then Err(OutsideModel)
    else if AsInt(a).Some? && AsInt(b).Some? then Ok(IntValue(IntArith(op, AsInt(a).value, AsInt(b).value)))
    else if op == Add && a.StrValue? && b.StrValue? then Ok(StrValue(a.s + b.s))
    else if op == Mul && a.StrValue? && AsInt(b).Some? then Ok(StrValue(Repeat(a.s, AsInt(b).value)))
    else if op == Mul && AsInt(a).Some? && b.StrValue? then Ok(StrValue(Repeat(b.s, AsInt(a).value)))
    else if op == Sub && IsMoment(a) && IsMoment(b) then Err(OutsideModel) // a timedelta
    else Err(TypeError)
  }
}
