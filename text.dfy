/** The parts of Go's `strings`, `strconv` and `fmt` packages that the server
    relies on: prefix/suffix/substring tests, decimal and hexadecimal
    formatting of integers, and `strconv.Atoi` with its 64-bit range check. */
module Text {
  import opened Outcomes

  const MinInt64: int := -0x8000_0000_0000_0000
  const MaxInt64: int := 0x7FFF_FFFF_FFFF_FFFF

  /** Go's `int` (and `int64`) on the 64-bit platforms the server targets. */
  type Int64 = x: int | MinInt64 <= x <= MaxInt64

  /** strings.HasPrefix */
  predicate HasPrefix(s: string, p: string) {
    |p| <= |s| && s[..|p|] == p
  }

  /** strings.HasSuffix */
  predicate HasSuffix(s: string, p: string) {
    |p| <= |s| && s[|s| - |p|..] == p
  }

  /** `sub` occurs in `s` starting at index `i`. */
  predicate OccursAt(s: string, sub: string, i: int) {
    0 <= i && i + |sub| <= |s| && s[i..i + |sub|] == sub
  }

  /** strings.Contains, scanning left to right. */
  predicate Contains(s: string, sub: string)
    decreases |s|
  {
    HasPrefix(s, sub) || (|s| > 0 && Contains(s[1..], sub))
  }

  lemma OccursAtShift(s: string, sub: string, i: int)
    requires |s| > 0 && 0 <= i
    ensures OccursAt(s[1..], sub, i) <==> OccursAt(s, sub, i + 1)
  {
    if 0 <= i && i + 1 + |sub| <= |s| {
      assert s[1..][i..i + |sub|] == s[i + 1..i + 1 + |sub|];
    }
  }

  /** The scan finds `sub` exactly when some position holds it. */
  lemma {:induction false} ContainsSpec(s: string, sub: string)
    ensures Contains(s, sub) <==> exists i :: OccursAt(s, sub, i)
    decreases |s|
  {
    if HasPrefix(s, sub) {
      assert OccursAt(s, sub, 0);
    } else if |s| == 0 {
      assert HasPrefix(s, []);
    } else {
      ContainsSpec(s[1..], sub);
      if Contains(s[1..], sub) {
        var i :| OccursAt(s[1..], sub, i);
        OccursAtShift(s, sub, i);
      } else {
        forall j ensures !OccursAt(s, sub, j) {
          if j <= 0 {
            assert OccursAt(s, sub, j) ==> HasPrefix(s, sub);
          } else {
            OccursAtShift(s, sub, j - 1);
          }
        }
      }
    }
  }

  // ---------------------------------------------------------------- decimal

  predicate IsDigit(c: char) {
    '0' <= c <= '9'
  }

  predicate AllDigits(s: string) {
    forall i :: 0 <= i < |s| ==> IsDigit(s[i])
  }

  function DigitChar(d: nat): (c: char)
    requires d < 10
  {
    ('0' as int + d) as char
  }

  /** The decimal digits of `n`, most significant first, without leading zeros. */
  function FormatNat(n: nat): (s: string)
    ensures |s| >= 1 && AllDigits(s)
    ensures s[0] == '0' ==> n == 0
    decreases n
  {
    if n < 10 then [DigitChar(n)] else FormatNat(n / 10) + [DigitChar(n % 10)]
  }

  /** fmt's `%d` and strconv.Itoa: a minus sign for negative values. */
  function FormatInt(i: int): string {
    if i < 0 then "-" + FormatNat(-i) else FormatNat(i)
  }

  /** Value of a string of decimal digits (0 for the empty string). */
  function DigitsValue(s: string): nat
    requires AllDigits(s)
  {
    if |s| == 0 then 0
    else DigitsValue(s[..|s| - 1]) * 10 + (s[|s| - 1] as int - '0' as int)
  }

  /** strconv.Atoi: an optional '+' or '-', then one or more decimal digits,
      and the value must fit in 64 bits; anything else is an error (None). */
  function Atoi(s: string): Option<Int64> {
    var negative := |s| > 0 && s[0] == '-';
    var digits := if |s| > 0 && (s[0] == '-' || s[0] == '+') then s[1..] else s;
    if |digits| == 0 || !AllDigits(digits) then None
    else
      var magnitude: int := DigitsValue(digits);
      var v := if negative then -magnitude else magnitude;
      if MinInt64 <= v <= MaxInt64 then Some(v) else None
  }

  lemma {:induction false} FormatNatValue(n: nat)
    ensures DigitsValue(FormatNat(n)) == n
    decreases n
  {
    if n >= 10 {
      var s := FormatNat(n);
      FormatNatValue(n / 10);
      assert s[..|s| - 1] == FormatNat(n / 10);
    }
  }

  lemma AtoiFormatNegative(n: int)
    requires MinInt64 <= n < 0
    ensures Atoi(FormatInt(n)) == Some(n)
  {
    var s := FormatInt(n);
    FormatNatValue(-n);
    assert s[0] == '-';
    assert s[1..] == FormatNat(-n);
  }

  lemma AtoiFormatNonNegative(n: int)
    requires 0 <= n <= MaxInt64
    ensures Atoi(FormatInt(n)) == Some(n)
  {
    var s := FormatInt(n);
    FormatNatValue(n);
    assert s == FormatNat(n);
    assert IsDigit(s[0]);
  }

  /** Reading back what `%d` printed gives the same 64-bit integer. */
  lemma AtoiFormatInt(i: Int64)
    ensures Atoi(FormatInt(i)) == Some(i)
  {
    if i < 0 {
      AtoiFormatNegative(i);
    } else {
      AtoiFormatNonNegative(i);
    }
  }

  /** Drops leading zeros, keeping at least one digit. */
  function TrimZeros(s: string): (r: string)
    ensures |r| <= |s| && r == s[|s| - |r|..]
    ensures |s| >= 1 ==> |r| >= 1 && (|r| == 1 || r[0] != '0')
    decreases |s|
  {
    if |s| > 1 && s[0] == '0' then TrimZeros(s[1..]) else s
  }

  lemma {:induction false} LeadingZeroValue(t: string)
    requires AllDigits(t)
    ensures AllDigits("0" + t) && DigitsValue("0" + t) == DigitsValue(t)
    decreases |t|
  {
    var z := "0" + t;
    assert AllDigits(z) by {
      forall i | 0 <= i < |z| ensures IsDigit(z[i]) {
        if i > 0 { assert z[i] == t[i - 1]; }
      }
    }
    if |t| > 0 {
      assert z[..|z| - 1] == "0" + t[..|t| - 1];
      LeadingZeroValue(t[..|t| - 1]);
    }
  }

  lemma {:induction false} TrimZerosValue(s: string)
    requires AllDigits(s)
    ensures AllDigits(TrimZeros(s)) && DigitsValue(TrimZeros(s)) == DigitsValue(s)
    decreases |s|
  {
    if |s| > 1 && s[0] == '0' {
      TrimZerosValue(s[1..]);
      assert s == "0" + s[1..];
      LeadingZeroValue(s[1..]);
    }
  }

  lemma {:induction false} LeadingDigitValue(d: string)
    requires |d| >= 1 && AllDigits(d) && d[0] != '0'
    ensures DigitsValue(d) >= 1
    decreases |d|
  {
    if |d| > 1 {
      LeadingDigitValue(d[..|d| - 1]);
    }
  }

  /** A digit string without leading zeros is what `%d` prints for its value. */
  lemma {:induction false} FormatNatOfDigits(d: string)
    requires |d| >= 1 && AllDigits(d) && (|d| == 1 || d[0] != '0')
    ensures FormatNat(DigitsValue(d)) == d
    decreases |d|
  {
    var n := DigitsValue(d);
    if |d| > 1 {
      var p := d[..|d| - 1];
      LeadingDigitValue(p);
      FormatNatOfDigits(p);
      assert n / 10 == DigitsValue(p) && n % 10 == d[|d| - 1] as int - '0' as int;
      assert d == p + [d[|d| - 1]];
    }
  }

  /** Whatever `Atoi` accepts, printing its value with `%d` gives the input
      without a '+' sign, without leading zeros, and with a '-' only for a
      negative value. */
  lemma AtoiCanonical(s: string)
    requires Atoi(s).Some?
    ensures var digits := if |s| > 0 && (s[0] == '-' || s[0] == '+') then s[1..] else s;
      FormatInt(Atoi(s).value) == (if Atoi(s).value < 0 then "-" else "") + TrimZeros(digits)
  {
    var digits := if |s| > 0 && (s[0] == '-' || s[0] == '+') then s[1..] else s;
    CanonicalMagnitude(digits);
    var m: int := DigitsValue(digits);
    if |s| > 0 && s[0] == '-' {
      assert Atoi(s).value == -m;
    } else {
      assert Atoi(s).value == m;
    }
  }

  /** The magnitude `Atoi` reads from a digit string prints as that string
      without its leading zeros. */
  lemma CanonicalMagnitude(digits: string)
    requires |digits| > 0 && AllDigits(digits)
    ensures FormatNat(DigitsValue(digits)) == TrimZeros(digits)
  {
    TrimZerosValue(digits);
    FormatNatOfDigits(TrimZeros(digits));
  }


  // ------------------------------------------------------------ hexadecimal

  predicate IsHexDigit(c: char) {
    '0' <= c <= '9' || 'a' <= c <= 'f'
  }

  predicate AllHexDigits(s: string) {
    forall i :: 0 <= i < |s| ==> IsHexDigit(s[i])
  }

  function HexDigitChar(d: nat): (c: char)
    requires d < 16
  {
    if d < 10 then ('0' as int + d) as char else ('a' as int + d - 10) as char
  }

  function HexDigitValue(c: char): (d: nat)
    requires IsHexDigit(c)
    ensures d < 16
  {
    if c <= '9' then c as int - '0' as int else c as int - 'a' as int + 10
  }

  /** fmt's `%x` of a non-negative value: lower-case hex digits, no leading zeros. */
  function FormatHexNat(n: nat): (s: string)
    ensures |s| >= 1 && AllHexDigits(s)
    decreases n
  {
    if n < 16 then [HexDigitChar(n)] else FormatHexNat(n / 16) + [HexDigitChar(n % 16)]
  }

  /** fmt's `%x` of a signed integer: a minus sign, then the magnitude. */
  function FormatHex(i: int): string {
    if i < 0 then "-" + FormatHexNat(-i) else FormatHexNat(i)
  }

  function HexDigitsValue(s: string): nat
    requires AllHexDigits(s)
  {
    if |s| == 0 then 0
    else HexDigitsValue(s[..|s| - 1]) * 16 + HexDigitValue(s[|s| - 1])
  }

  /** Reads back one `%x` field: an optional '-' and at least one hex digit. */
  function ParseHex(s: string): Option<int> {
    var negative := |s| > 0 && s[0] == '-';
    var digits := if negative then s[1..] else s;
    if |digits| == 0 || !AllHexDigits(digits) then None
    else
      var magnitude: int := HexDigitsValue(digits);
      Some(if negative then -magnitude else magnitude)
  }

  lemma {:induction false} FormatHexNatValue(n: nat)
    ensures HexDigitsValue(FormatHexNat(n)) == n
    decreases n
  {
    if n >= 16 {
      var s := FormatHexNat(n);
      FormatHexNatValue(n / 16);
      assert s[..|s| - 1] == FormatHexNat(n / 16);
    }
  }

  /** `%x` output parses back to the printed integer. */
  lemma ParseFormatHex(i: int)
    ensures ParseHex(FormatHex(i)) == Some(i)
  {
    if i < 0 {
      FormatHexNatValue(-i);
      assert FormatHex(i)[1..] == FormatHexNat(-i);
    } else {
      FormatHexNatValue(i);
    }
  }

  /** `%x` output contains a '-' only as its first character. */
  lemma FormatHexDashFree(i: int)
    ensures |FormatHex(i)| >= 1
    ensures forall k :: 1 <= k < |FormatHex(i)| ==> FormatHex(i)[k] != '-'
  {
  }
}
