/**
  The parts of Go's `net/url` package that the flows handler relies on:
  `Values.Get` and `QueryUnescape`. Percent-decoding follows section 2.1 of
  RFC 3986, and `+` decodes to a space as in form encoding. A decoded byte is
  a `char` below 256.
*/
module GoUrl {
  import opened Wrappers
  import GoStrconv
  import GoStrings

  /** `url.Values`: each query parameter with the list of its values. */
  type Values = map<string, seq<string>>

  /** `Values.Get`: the first value of `key`, or `""` when it has none. */
  function Get(params: Values, key: string): string
  {
    if key in params && |params[key]| > 0 then params[key][0] else ""
  }

  predicate IsHex(c: char)
  {
    '0' <= c <= '9' || 'a' <= c <= 'f' || 'A' <= c <= 'F'
  }

  function Unhex(c: char): (d: nat)
    requires IsHex(c)
    ensures d < 16
  {
    if '0' <= c <= '9' then c as int - '0' as int
    else if 'a' <= c <= 'f' then c as int - 'a' as int + 10
    else c as int - 'A' as int + 10
  }

  /** A `%` at `i` that is not followed by two hexadecimal digits. */
  predicate BadEscapeAt(s: string, i: nat)
  {
    i < |s| && s[i] == '%' && !(i + 2 < |s| && IsHex(s[i + 1]) && IsHex(s[i + 2]))
  }

  /** The text of `url.EscapeError`, for the at most three bytes starting at the bad `%`. */
  function EscapeErrorText(fragment: string): string
  {
    "invalid URL escape " + GoStrconv.Quote(fragment)
  }

  /** `url.QueryUnescape`: fails on the first malformed escape, reporting it. */
  function Unescape(s: string): (r: Result<string, string>)
    decreases |s|
  {
    if s == [] then Success("")
    else if s[0] == '%' then
      if 2 < |s| && IsHex(s[1]) && IsHex(s[2]) then
        match Unescape(s[3..])
        case Failure(e) => Failure(e)
        case Success(rest) => Success([(16 * Unhex(s[1]) + Unhex(s[2])) as char] + rest)
      else Failure(EscapeErrorText(if |s| > 3 then s[..3] else s))
    else
      match Unescape(s[1..])
      case Failure(e) => Failure(e)
      case Success(rest) => Success([if s[0] == '+' then ' ' else s[0]] + rest)
  }

  /** Decoding fails exactly when some `%` is not followed by two hexadecimal digits. */
  lemma {:induction false} UnescapeFails(s: string)
    ensures Unescape(s).Failure? <==> exists i: nat :: BadEscapeAt(s, i)
    decreases |s|
  {
    if s != [] {
      if s[0] == '%' && 2 < |s| && IsHex(s[1]) && IsHex(s[2]) {
        var t := s[3..];
        UnescapeFails(t);
        if exists i: nat :: BadEscapeAt(s, i) {
          var i: nat :| BadEscapeAt(s, i);
          assert i >= 3;
          assert BadEscapeAt(t, i - 3);
        }
        if exists j: nat :: BadEscapeAt(t, j) {
          var j: nat :| BadEscapeAt(t, j);
          assert BadEscapeAt(s, j + 3);
        }
      } else if s[0] == '%' {
        assert BadEscapeAt(s, 0);
      } else {
        var t := s[1..];
        UnescapeFails(t);
        if exists i: nat :: BadEscapeAt(s, i) {
          var i: nat :| BadEscapeAt(s, i);
          assert i >= 1;
          assert BadEscapeAt(t, i - 1);
        }
        if exists j: nat :: BadEscapeAt(t, j) {
          var j: nat :| BadEscapeAt(t, j);
          assert BadEscapeAt(s, j + 1);
        }
      }
    }
  }

  /** Each escape shortens the text by two bytes, and a text without `%` always decodes. */
  lemma {:induction false} UnescapeLength(s: string)
    ensures Unescape(s).Success? ==> |Unescape(s).value| + 2 * GoStrings.Count(s, '%') == |s|
    ensures '%' !in s ==> Unescape(s).Success?
    decreases |s|
  {
    if s != [] {
      if s[0] == '%' && 2 < |s| && IsHex(s[1]) && IsHex(s[2]) {
        UnescapeLength(s[3..]);
        assert s[1..][1..] == s[2..] && s[2..][1..] == s[3..];
        assert GoStrings.Count(s[2..], '%') == GoStrings.Count(s[3..], '%');
        assert GoStrings.Count(s[1..], '%') == GoStrings.Count(s[3..], '%');
      } else if s[0] != '%' {
        UnescapeLength(s[1..]);
      }
    }
  }

  /** The at most three bytes starting at `i`: a malformed escape as `url.EscapeError` reports it. */
  function Fragment(s: string, i: nat): string
    requires i < |s|
  {
    s[i..if i + 3 < |s| then i + 3 else |s|]
  }

  /** The fragment at `i` does not depend on the bytes before `i`. */
  lemma FragmentDrop(s: string, d: nat, i: nat)
    requires d <= i < |s|
    ensures Fragment(s[d..], i - d) == Fragment(s, i)
  {
  }

  /**
    The error names the first malformed escape: the `%` there and at most the
    two bytes after it.
  */
  lemma {:induction false} UnescapeFirstError(s: string, i: nat)
    requires BadEscapeAt(s, i)
    requires forall j: nat :: j < i ==> !BadEscapeAt(s, j)
    ensures Unescape(s) == Failure(EscapeErrorText(Fragment(s, i)))
    decreases |s|
  {
    if i == 0 {
      assert Fragment(s, 0) == if |s| > 3 then s[..3] else s;
    } else {
      assert !BadEscapeAt(s, 0);
      var d := if s[0] == '%' then 3 else 1;
      UnescapeShift(s, i, d);
      UnescapeFirstError(s[d..], i - d);
      FragmentDrop(s, d, i);
      UnescapeDrop(s, d);
    }
  }

  /** Before the first malformed escape, a decoding error is the error of the rest. */
  lemma UnescapeDrop(s: string, d: nat)
    requires s != [] && !BadEscapeAt(s, 0) && d == (if s[0] == '%' then 3 else 1)
    requires Unescape(s[d..]).Failure?
    ensures Unescape(s) == Unescape(s[d..])
  {
  }

  /** Dropping the first `d` bytes before the first malformed escape keeps it the first. */
  lemma UnescapeShift(s: string, i: nat, d: nat)
    requires 0 < i && BadEscapeAt(s, i)
    requires d == (if s[0] == '%' then 3 else 1)
    requires forall j: nat :: j < i ==> !BadEscapeAt(s, j)
    ensures d <= i && BadEscapeAt(s[d..], i - d)
    ensures forall j: nat :: j < i - d ==> !BadEscapeAt(s[d..], j)
  {
    assert !BadEscapeAt(s, 0);
    forall j: nat | j < i - d
      ensures !BadEscapeAt(s[d..], j)
    {
      assert !BadEscapeAt(s, j + d);
    }
  }

  /** A string without `%` and `+` decodes to itself. */
  lemma {:induction false} UnescapePlain(s: string)
    requires '%' !in s && '+' !in s
    ensures Unescape(s) == Success(s)
    decreases |s|
  {
    if s != [] {
      UnescapePlain(s[1..]);
      assert s == [s[0]] + s[1..];
    }
  }
}
