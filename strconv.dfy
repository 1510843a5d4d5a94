/**
  The parts of Go's `strconv` package that the flows handler relies on:
  `ParseInt(s, 10, 64)`, `FormatInt(v, 10)`, the text of a `*NumError`, and
  the wrap-around of 64-bit signed subtraction.
*/
module GoStrconv {
  import opened Wrappers

  const MinInt64: int := -0x8000_0000_0000_0000
  const MaxInt64: int := 0x7fff_ffff_ffff_ffff
  const MaxUint64: int := 0xffff_ffff_ffff_ffff

  /** Go's `int64`. */
  type Int64 = x: int | MinInt64 <= x <= MaxInt64

  /** The result of `a - b` on `int64` operands: two's-complement wrap-around. */
  function Wrap64(x: int): (r: Int64)
    ensures MinInt64 <= x <= MaxInt64 ==> r == x
    ensures (r - x) % 0x1_0000_0000_0000_0000 == 0
  {
    (x - MinInt64) % 0x1_0000_0000_0000_0000 + MinInt64
  }

  predicate IsDigit(c: char)
  {
    '0' <= c <= '9'
  }

  predicate AllDigits(s: string)
  {
    forall i :: 0 <= i < |s| ==> IsDigit(s[i])
  }

  /** The decimal value of a string of digits, read left to right. */
  function Value(digits: string): nat
    requires AllDigits(digits)
  {
    if digits == [] then 0
    else 10 * Value(digits[..|digits| - 1]) + (digits[|digits| - 1] as int - '0' as int)
  }

  /** Length of the longest prefix of `s` made of digits. */
  function DigitRun(s: string): (k: nat)
    ensures k <= |s|
    ensures AllDigits(s[..k])
    ensures k < |s| ==> !IsDigit(s[k])
  {
    if s == [] || !IsDigit(s[0]) then 0 else 1 + DigitRun(s[1..])
  }

  /** Why `strconv.ParseInt` rejected its input. */
  datatype NumErrorKind = ErrSyntax | ErrRange

  /** A `*strconv.NumError` raised by `ParseInt`: the whole input and the reason. */
  datatype NumError = NumError(num: string, err: NumErrorKind)

  /** The text of `ErrSyntax` and `ErrRange`. */
  function KindText(k: NumErrorKind): string
  {
    match k
    case ErrSyntax => "invalid syntax"
    case ErrRange => "value out of range"
  }

  /**
    `strconv.Quote`, for the escapes of `"` and `\`; other characters are kept
    as they are. The quoted text is enclosed in double quotes and the argument
    can be read back from what lies between them.
  */
  function Quote(s: string): (q: string)
    ensures |q| >= 2 && q[0] == '"' && q[|q| - 1] == '"'
  {
    "\"" + QuoteBody(s) + "\""
  }

  function QuoteBody(s: string): string
  {
    if s == [] then ""
    else Escaped(s[0]) + QuoteBody(s[1..])
  }

  /** A character as `Quote` writes it: `"` and `\` behind a backslash. */
  function Escaped(c: char): string
  {
    if c == '"' || c == '\\' then ['\\', c] else [c]
  }

  /** Reads back the body of a quoted string: a backslash stands for the character after it. */
  function Unquote(body: string): string
    decreases |body|
  {
    if body == [] then ""
    else if body[0] == '\\' && |body| >= 2 then [body[1]] + Unquote(body[2..])
    else [body[0]] + Unquote(body[1..])
  }

  /** The body of a quoted string reads back as the original. */
  lemma {:induction false} UnquoteQuote(s: string)
    ensures Unquote(QuoteBody(s)) == s
  {
    if s != [] {
      UnquoteQuote(s[1..]);
      var e := Escaped(s[0]);
      var b := QuoteBody(s);
      assert b == e + QuoteBody(s[1..]);
      assert b[|e|..] == QuoteBody(s[1..]);
      if |e| == 2 {
        assert b[0] == '\\' && b[1] == s[0];
      } else {
        assert b[0] == s[0] && s[0] != '\\';
      }
    }
  }

  /** The argument of `Quote` can be read back from what lies between the quotes. */
  lemma QuoteRoundTrip(s: string)
    ensures var q := Quote(s); Unquote(q[1..|q| - 1]) == s
  {
    UnquoteQuote(s);
    var q := Quote(s);
    assert q[1..|q| - 1] == QuoteBody(s);
  }

  /** `(*NumError).Error()` for an error of `ParseInt`. */
  function NumErrorText(e: NumError): string
  {
    "strconv.ParseInt: parsing " + Quote(e.num) + ": " + KindText(e.err)
  }

  /** Two errors with the same text are the same error: the text names the whole input and the reason. */
  lemma NumErrorTextInjective(a: NumError, b: NumError)
    requires NumErrorText(a) == NumErrorText(b)
    ensures a == b
  {
    NumErrorTextParts(a);
    NumErrorTextParts(b);
    assert a.err == b.err;
    assert Quote(a.num) == Quote(b.num);
    QuoteRoundTrip(a.num);
    QuoteRoundTrip(b.num);
  }

  /** Where the quoted input and the reason sit in the text of an error. */
  lemma NumErrorTextParts(e: NumError)
    ensures var t, q := NumErrorText(e), Quote(e.num);
      |t| == 28 + |q| + |KindText(e.err)| && t[26..26 + |q|] == q &&
      t[|t| - 1] == (if e.err == ErrSyntax then 'x' else 'e')
  {
    var t, q, k := NumErrorText(e), Quote(e.num), KindText(e.err);
    assert t == "strconv.ParseInt: parsing " + q + ": " + k;
    assert t[26..26 + |q|] == q;
  }

  /** The input of `ParseInt` without its optional leading sign. */
  function Unsigned(s: string): string
  {
    if s != [] && (s[0] == '+' || s[0] == '-') then s[1..] else s
  }

  /** `s` is an optional sign followed by at least one decimal digit. */
  predicate IsDecimal(s: string)
  {
    |Unsigned(s)| >= 1 && AllDigits(Unsigned(s))
  }

  /** The signed value of a decimal string. */
  function SignedValue(s: string): int
    requires IsDecimal(s)
  {
    var n: int := Value(Unsigned(s));
    if s[0] == '-' then -n else n
  }

  /**
    `strconv.ParseInt(s, 10, 64)`. The digits are read left to right and a
    range error is raised as soon as the value read so far exceeds the
    64-bit unsigned range, even if a character that is not a digit comes later;
    a syntax error is raised for an empty input, a lone sign, or any other
    character; the signed range is checked last.
  */
  function ParseInt(s: string): (r: Result<Int64, NumError>)
    ensures r.Failure? ==> r.error.num == s
  {
    if s == [] then Failure(NumError(s, ErrSyntax))
    else
      var neg := s[0] == '-';
      var u := Unsigned(s);
      var k := DigitRun(u);
      if Value(u[..k]) > MaxUint64 then Failure(NumError(s, ErrRange))
      else if k == 0 || k < |u| then Failure(NumError(s, ErrSyntax))
      else
        assert u[..k] == u;
        var n: int := Value(u);
        if !neg && n > MaxInt64 then Failure(NumError(s, ErrRange))
        else if neg && n > -MinInt64 then Failure(NumError(s, ErrRange))
        else Success(if neg then -n else n)
  }

  /** The decimal digits of a natural number, most significant first, without leading zeros. */
  function Digits(n: nat): (ds: string)
    ensures |ds| >= 1 && AllDigits(ds)
  {
    if n < 10 then [('0' as int + n) as char]
    else Digits(n / 10) + [('0' as int + n % 10) as char]
  }

  /** `strconv.FormatInt(v, 10)`. */
  function FormatInt(v: int): string
  {
    if v < 0 then "-" + Digits(-v) else Digits(v)
  }

  /**
    What `FormatInt` writes: a minus sign exactly for negative numbers, then
    decimal digits with no leading zero except in `"0"` itself.
  */
  lemma FormatIntShape(v: int)
    ensures IsDecimal(FormatInt(v))
    ensures FormatInt(v)[0] == '-' <==> v < 0
    ensures FormatInt(v)[0] != '+'
    ensures Unsigned(FormatInt(v))[0] == '0' <==> v == 0
    ensures v == 0 <==> FormatInt(v) == "0"
  {
    var n: int := v;
    DigitsLead(if n < 0 then -n else n);
  }

  /** Only zero is written with a leading `0`, and then as the single digit. */
  lemma {:induction false} DigitsLead(n: nat)
    ensures Digits(n)[0] == '0' <==> n == 0
    ensures n == 0 ==> Digits(n) == "0"
  {
    if n >= 10 {
      DigitsLead(n / 10);
    }
  }

  /** Reading back the digits of `n` gives `n`. */
  lemma {:induction false} DigitsValue(n: nat)
    ensures Value(Digits(n)) == n
  {
    if n >= 10 {
      DigitsValue(n / 10);
      var ds := Digits(n);
      assert ds[..|ds| - 1] == Digits(n / 10);
    }
  }

  lemma DigitRunAll(s: string)
    requires AllDigits(s)
    ensures DigitRun(s) == |s|
  {
  }

  /** `ParseInt` accepts exactly the decimal strings whose value fits in 64 bits, and returns that value. */
  lemma ParseIntSuccess(s: string)
    ensures ParseInt(s).Success? <==> IsDecimal(s) && MinInt64 <= SignedValue(s) <= MaxInt64
    ensures ParseInt(s).Success? ==> ParseInt(s).value == SignedValue(s)
  {
    if s != [] {
      var u := Unsigned(s);
      if AllDigits(u) {
        DigitRunAll(u);
        assert u[..|u|] == u;
      }
    }
  }

  /** `FormatInt` and `ParseInt` are inverse on 64-bit integers. */
  lemma ParseFormat(v: Int64)
    ensures ParseInt(FormatInt(v)) == Success(v)
  {
    var s := FormatInt(v);
    var n: int := v;
    if n < 0 {
      DigitsValue(-n);
      assert Unsigned(s) == Digits(-n);
    } else {
      DigitsValue(v);
      assert Unsigned(s) == Digits(v);
    }
    ParseIntSuccess(s);
  }
}
