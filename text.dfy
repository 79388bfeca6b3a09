/** Small value types and string helpers shared by the scheduler's components:
    an optional value, decimal rendering of naturals (Python's `str` on an int),
    zero padding (`str.zfill`), ASCII case-insensitive substring search
    and `%H:%M` rendering of a minute timestamp. */
module Text {

  datatype Option<+T> = None | Some(value: T) {
    function GetOr(default: T): T {
      match this
      case Some(v) => v
      case None => default
    }
  }

  predicate IsDigit(c: char) {
    '0' <= c <= '9'
  }

  function DigitChar(d: nat): (c: char)
    requires d < 10
    ensures IsDigit(c) && c as int - '0' as int == d
  {
    ('0' as int + d) as char
  }

  function DigitValue(c: char): nat
    requires IsDigit(c)
  {
    c as int - '0' as int
  }

  /** `str(n)` for a non-negative Python int: the shortest decimal numeral. */
  function Decimal(n: nat): (s: string)
    ensures |s| >= 1
    ensures forall i :: 0 <= i < |s| ==> IsDigit(s[i])
    ensures s[0] == '0' ==> n == 0
    ensures n < 10 <==> |s| == 1
  {
    if n < 10 then [DigitChar(n)] else Decimal(n / 10) + [DigitChar(n % 10)]
  }

  /** Reads a run of decimal digits; leading zeros are allowed. */
  function ParseDecimal(s: string): nat
    requires forall i :: 0 <= i < |s| ==> IsDigit(s[i])
  {
    if s == [] then 0 else ParseDecimal(s[..|s| - 1]) * 10 + DigitValue(s[|s| - 1])
  }

  lemma {:induction false} DecimalRoundTrip(n: nat)
    ensures ParseDecimal(Decimal(n)) == n
  {
    if n >= 10 {
      var s := Decimal(n);
      assert s[..|s| - 1] == Decimal(n / 10);
      DecimalRoundTrip(n / 10);
    }
  }

  function Zeros(k: nat): (z: string)
    ensures |z| == k && forall i :: 0 <= i < k ==> z[i] == '0'
  {
    if k == 0 then [] else Zeros(k - 1) + ['0']
  }

  /** `s.zfill(width)`: pads `s` on the left with '0' up to `width` characters. */
  function ZFill(s: string, width: nat): (r: string)
    ensures |r| == if |s| >= width then |s| else width
    ensures r[|r| - |s|..] == s
    ensures forall i :: 0 <= i < |r| - |s| ==> r[i] == '0'
  {
    if |s| >= width then s else Zeros(width - |s|) + s
  }

  lemma {:induction false} LeadingZerosIgnored(k: nat, s: string)
    requires forall i :: 0 <= i < |s| ==> IsDigit(s[i])
    ensures ParseDecimal(Zeros(k) + s) == ParseDecimal(s)
    decreases k, |s|
  {
    if s == [] {
      if k > 0 {
        assert Zeros(k) + s == Zeros(k - 1) + ['0'];
        assert (Zeros(k - 1) + ['0'])[..k - 1] == Zeros(k - 1) + [];
        LeadingZerosIgnored(k - 1, s);
      }
    } else {
      var t := Zeros(k) + s;
      assert t[..|t| - 1] == Zeros(k) + s[..|s| - 1];
      LeadingZerosIgnored(k, s[..|s| - 1]);
    }
  }

  /** Zero padding keeps a numeral made of digits. */
  lemma {:induction false} ZFillDigits(s: string, width: nat)
    requires forall i :: 0 <= i < |s| ==> IsDigit(s[i])
    ensures forall i :: 0 <= i < |ZFill(s, width)| ==> IsDigit(ZFill(s, width)[i])
  {
    if |s| < width {
      var z := Zeros(width - |s|);
      forall i | 0 <= i < |z + s| ensures IsDigit((z + s)[i]) {
        if i >= |z| {
          assert (z + s)[i] == s[i - |z|];
        }
      }
    }
  }

  /** Zero padding never loses the number it pads. */
  lemma {:induction false} ZFillDecimalRoundTrip(n: nat, width: nat)
    ensures forall i :: 0 <= i < |ZFill(Decimal(n), width)| ==> IsDigit(ZFill(Decimal(n), width)[i])
    ensures ParseDecimal(ZFill(Decimal(n), width)) == n
  {
    var s := Decimal(n);
    DecimalRoundTrip(n);
    ZFillDigits(s, width);
    if |s| < width {
      LeadingZerosIgnored(width - |s|, s);
    }
  }

  /** ASCII upper-casing of one character; other characters are kept. */
  function UpperChar(c: char): (u: char)
    ensures 'a' <= c <= 'z' ==> u as int == c as int - 32
    ensures !('a' <= c <= 'z') ==> u == c
  {
    if 'a' <= c <= 'z' then (c as int - 32) as char else c
  }

  /** `needle` occurs in `s` at position `i` once both are upper-cased. */
  predicate OccursAtIgnoringCase(s: string, needle: string, i: nat)
    requires i + |needle| <= |s|
  {
    forall k :: 0 <= k < |needle| ==> UpperChar(s[i + k]) == UpperChar(needle[k])
  }

  /** Case-insensitive `needle in s` (`str.contains(..., case=False)` for ASCII text). */
  function ContainsIgnoringCase(s: string, needle: string): (b: bool)
    ensures b <==> exists i :: 0 <= i && i + |needle| <= |s| && OccursAtIgnoringCase(s, needle, i)
    decreases |s|
  {
    if |needle| > |s| then
      false
    else if OccursAtIgnoringCase(s, needle, 0) then
      true
    else
      var rest := ContainsIgnoringCase(s[1..], needle);
      assert forall i :: 0 <= i && i + |needle| <= |s[1..]| ==>
        (OccursAtIgnoringCase(s[1..], needle, i) <==> OccursAtIgnoringCase(s, needle, i + 1));
      assert rest ==> exists i :: 0 <= i && i + |needle| <= |s| && OccursAtIgnoringCase(s, needle, i);
      assert (exists i :: 0 <= i && i + |needle| <= |s| && OccursAtIgnoringCase(s, needle, i)) ==> rest by {
        if exists i :: 0 <= i && i + |needle| <= |s| && OccursAtIgnoringCase(s, needle, i) {
          var i :| 0 <= i && i + |needle| <= |s| && OccursAtIgnoringCase(s, needle, i);
          assert i > 0;
          assert OccursAtIgnoringCase(s[1..], needle, i - 1);
        }
      }
      rest
  }

  /** Two-digit rendering of a number below 100 (`%02d`). */
  function TwoDigits(n: nat): (s: string)
    requires n < 100
    ensures |s| == 2 && IsDigit(s[0]) && IsDigit(s[1])
    ensures DigitValue(s[0]) * 10 + DigitValue(s[1]) == n
  {
    [DigitChar(n / 10), DigitChar(n % 10)]
  }

  /** `strftime('%H:%M')` of a timestamp given in minutes since some midnight. */
  function Clock(minutes: int): (s: string)
    ensures |s| == 5 && s[2] == ':'
    ensures IsDigit(s[0]) && IsDigit(s[1]) && IsDigit(s[3]) && IsDigit(s[4])
    ensures DigitValue(s[0]) * 10 + DigitValue(s[1]) == (minutes / 60) % 24
    ensures DigitValue(s[3]) * 10 + DigitValue(s[4]) == minutes % 60
  {
    TwoDigits((minutes / 60) % 24) + ":" + TwoDigits(minutes % 60)
  }
}
