/** Base-10 text of integers: the rendering `fmt.Sprintf("%d", v)` produces and the
    parser `strconv.ParseInt(s, 10, 64)` that reads it back. */
module Decimal {
  import opened Int64

  datatype Option<+T> = None | Some(value: T)

  predicate IsDigit(c: char) {
    '0' <= c <= '9'
  }

  predicate AllDigits(s: string) {
    forall i :: 0 <= i < |s| ==> IsDigit(s[i])
  }

  function DigitChar(d: nat): (c: char)
    requires d < 10
    ensures IsDigit(c)
  {
    ('0' as int + d) as char
  }

  function DigitValue(c: char): (d: nat)
    requires IsDigit(c)
    ensures d < 10 && DigitChar(d) == c
  {
    c as int - '0' as int
  }

  /** The digits of n, most significant first, without leading zeros. */
  function NatDigits(n: nat): string
    decreases n
  {
    if n < 10 then [DigitChar(n)] else NatDigits(n / 10) + [DigitChar(n % 10)]
  }

  /** The number a string of digits denotes. */
  function DigitsValue(s: string): nat
    requires AllDigits(s)
    decreases |s|
  {
    if s == [] then 0 else DigitsValue(s[..|s| - 1]) * 10 + DigitValue(s[|s| - 1])
  }

  /** `%d`: a minus sign for negative values, then the digits of the magnitude. */
  function Format(x: int): (r: string)
    ensures |r| > 0 && (x < 0 <==> r[0] == '-')
    ensures var digits := if x < 0 then r[1..] else r;
      && |digits| > 0 && AllDigits(digits)
      && DigitsValue(digits) == (if x < 0 then -x else x)
      && (|digits| > 1 ==> digits[0] != '0')
  {
    if x < 0 then
      NatDigitsValue(-x);
      NatDigitsNoLeadingZero(-x);
      assert ("-" + NatDigits(-x))[1..] == NatDigits(-x);
      "-" + NatDigits(-x)
    else
      NatDigitsValue(x);
      NatDigitsNoLeadingZero(x);
      assert IsDigit(NatDigits(x)[0]);
      NatDigits(x)
  }

  /** `strconv.ParseInt(s, 10, 64)`: an optional leading sign, then at least one
      decimal digit and nothing else; a value outside int64 is a range error. */
  function ParseInt(s: string): (r: Option<int64>)
    ensures r.Some? ==> |s| > 0 && forall i :: 0 < i < |s| ==> IsDigit(s[i])
    ensures r.Some? ==> IsDigit(s[0]) || ((s[0] == '-' || s[0] == '+') && |s| > 1)
    ensures r.Some? && r.value < 0 ==> s[0] == '-'
    ensures |s| > 0 && AllDigits(s) ==> (r.Some? <==> DigitsValue(s) <= MAX_INT64)
    ensures |s| > 0 && AllDigits(s) && r.Some? ==> r.value == DigitsValue(s)
    ensures |s| > 1 && (s[0] == '-' || s[0] == '+') && AllDigits(s[1..]) ==>
      var m: int := DigitsValue(s[1..]);
      var v: int := if s[0] == '-' then -m else m;
      r == (if IsInt64(v) then Some(v) else None)
  {
    if |s| == 0 then None
    else
      var negative := s[0] == '-';
      var body := if s[0] == '-' || s[0] == '+' then s[1..] else s;
      if |body| == 0 || !AllDigits(body) then None
      else
        var magnitude: int := DigitsValue(body);
        var v := if negative then -magnitude else magnitude;
        if IsInt64(v) then Some(v) else None
  }

  lemma {:induction false} NatDigitsValue(n: nat)
    ensures |NatDigits(n)| > 0 && AllDigits(NatDigits(n))
    ensures DigitsValue(NatDigits(n)) == n
    decreases n
  {
    if n < 10 {
      var s := NatDigits(n);
      assert s[..0] == [];
    } else {
      NatDigitsValue(n / 10);
      var prefix := NatDigits(n / 10);
      var s := prefix + [DigitChar(n % 10)];
      assert s[..|s| - 1] == prefix;
      assert AllDigits(s) by {
        forall i | 0 <= i < |s| ensures IsDigit(s[i]) {
          if i < |prefix| { assert s[i] == prefix[i]; }
        }
      }
    }
  }

  /** `%d` writes no leading zero: a numeral of several digits starts with 1 to 9. */
  lemma {:induction false} NatDigitsNoLeadingZero(n: nat)
    ensures |NatDigits(n)| > 1 ==> NatDigits(n)[0] != '0'
    decreases n
  {
    if n >= 10 {
      NatDigitsValue(n / 10);
      NatDigitsNoLeadingZero(n / 10);
      assert NatDigits(n)[0] == NatDigits(n / 10)[0];
    }
  }

  /** The textual rendering of an int64 parses back to exactly that value. */
  lemma FormatParseRoundTrip(v: int64)
    ensures ParseInt(Format(v)) == Some(v)
  {
    if v < 0 {
      var magnitude: nat := -(v as int);
      NatDigitsValue(magnitude);
      var digits := NatDigits(magnitude);
      var s := "-" + digits;
      assert s[0] == '-' && s[1..] == digits;
    } else {
      NatDigitsValue(v);
      var s := NatDigits(v);
      assert IsDigit(s[0]);
    }
  }
}
