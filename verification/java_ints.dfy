/**
 * Java's 32-bit `int` text conversions as the dialog uses them:
 * `Integer.parseInt` (which throws NumberFormatException, here `None`)
 * and `String.valueOf(int)` / `Integer.toString`.
 */
module JavaInts {
  import opened Wrappers

  const IntMin: int := -0x8000_0000
  const IntMax: int := 0x7FFF_FFFF

  /** Values representable by a Java `int`. */
  predicate IsInt32(n: int) {
    IntMin <= n <= IntMax
  }

  predicate IsDigit(c: char) {
    '0' <= c <= '9'
  }

  predicate AllDigits(s: string) {
    forall i :: 0 <= i < |s| ==> IsDigit(s[i])
  }

  function DigitValue(c: char): nat
    requires IsDigit(c)
  {
    (c as int) - ('0' as int)
  }

  function DigitChar(d: nat): (c: char)
    requires d < 10
    ensures IsDigit(c) && DigitValue(c) == d
  {
    (('0' as int) + d) as char
  }

  /** Decimal value of a run of digits, most significant digit first. */
  function DigitsValue(ds: string): nat
    requires AllDigits(ds)
  {
    if |ds| == 0 then 0 else DigitsValue(ds[..|ds| - 1]) * 10 + DigitValue(ds[|ds| - 1])
  }

  predicate IsSign(c: char) {
    c == '-' || c == '+'
  }

  /**
   * `Integer.parseInt(s)`: an optional leading '-' or '+', then at least one
   * decimal digit and nothing else; the value must fit in 32 bits.
   */
  function ParseInt(s: string): (r: Option<int>)
    ensures r.Some? ==> IsInt32(r.value)
    ensures r.Some? ==> |s| > 0 && IsDigit(s[|s| - 1])
    ensures r.Some? ==> forall i :: 0 < i < |s| ==> IsDigit(s[i])
    ensures r.Some? && r.value < 0 ==> s[0] == '-'
  {
    if |s| == 0 then None
    else
      var digits := if IsSign(s[0]) then s[1..] else s;
      if |digits| == 0 || !AllDigits(digits) then None
      else
        var magnitude: int := DigitsValue(digits);
        var v := if s[0] == '-' then -magnitude else magnitude;
        if IsInt32(v) then Some(v) else None
  }

  /** Decimal digits of a natural number, without leading zeros. */
  function NatDigits(n: nat): (r: string)
    ensures |r| > 0 && AllDigits(r)
    ensures |r| > 1 ==> r[0] != '0'
  {
    if n < 10 then [DigitChar(n)] else NatDigits(n / 10) + [DigitChar(n % 10)]
  }

  /** `String.valueOf(int)`. */
  function FormatInt(n: int): (r: string)
    ensures |r| > 0
    ensures r[0] == '-' <==> n < 0
    ensures n >= 0 ==> IsDigit(r[0])
    ensures forall i :: 0 < i < |r| ==> IsDigit(r[i])
  {
    if n < 0 then "-" + NatDigits(-n) else NatDigits(n)
  }

  lemma {:induction false} NatDigitsValue(n: nat)
    ensures DigitsValue(NatDigits(n)) == n
  {
    if n >= 10 {
      NatDigitsValue(n / 10);
      var ds := NatDigits(n);
      assert ds[..|ds| - 1] == NatDigits(n / 10);
    }
  }

  /** Parsing what `String.valueOf` printed gives back the number. */
  lemma ParseFormatRoundTrip(n: int)
    requires IsInt32(n)
    ensures ParseInt(FormatInt(n)) == Some(n)
  {
    var s := FormatInt(n);
    if n < 0 {
      NatDigitsValue(-n);
      assert s[1..] == NatDigits(-n);
    } else {
      NatDigitsValue(n);
    }
  }

  /** Distinct `int`s print differently. */
  lemma FormatIntInjective(m: int, n: int)
    requires IsInt32(m) && IsInt32(n)
    requires FormatInt(m) == FormatInt(n)
    ensures m == n
  {
    ParseFormatRoundTrip(m);
    ParseFormatRoundTrip(n);
  }

  /** A '+' sign and leading zeros are accepted: "+007" parses as 7 and "-0" as 0. */
  lemma ParseIntAcceptsPlusAndZeros()
    ensures ParseInt("+007") == Some(7)
    ensures ParseInt("-0") == Some(0)
  {
    assert DigitsValue("007") == 7 by {
      assert "007"[..2] == "00";
      assert "00"[..1] == "0";
    }
    assert "+007"[1..] == "007";
    assert "-0"[1..] == "0" && DigitsValue("0") == 0;
  }

  /** Empty text, a bare sign, a leading blank and a value past 2^31 - 1 are refused. */
  lemma ParseIntRejectsMalformed()
    ensures ParseInt("") == None
    ensures ParseInt("-") == None
    ensures ParseInt(" 7") == None
    ensures ParseInt("2147483648") == None
  {
    assert !IsDigit(" 7"[0]);
    assert DigitsValue("2147483648") == 2147483648 by {
      var s := "2147483648";
      assert s[..9] == "214748364";
      assert "214748364"[..8] == "21474836";
      assert "21474836"[..7] == "2147483";
      assert "2147483"[..6] == "214748";
      assert "214748"[..5] == "21474";
      assert "21474"[..4] == "2147";
      assert "2147"[..3] == "214";
      assert "214"[..2] == "21";
      assert "21"[..1] == "2";
    }
  }
}
