/**
  `formatTime` over whole seconds: minutes in plain decimal, a colon, then the
  remaining seconds as two digits (`padStart(2, '0')`). `ParseTime` reads
  such a string back and is the partner of the round-trip lemma.
 */
module TimeFormat {
  import opened Wrappers

  predicate IsDigit(c: char)
  {
    '0' <= c <= '9'
  }

  predicate AllDigits(s: string)
  {
    forall i | 0 <= i < |s| :: IsDigit(s[i])
  }

  function DigitChar(d: nat): (c: char)
    requires d < 10
    ensures IsDigit(c)
  {
    ('0' as int + d) as char
  }

  function DigitValue(c: char): nat
    requires IsDigit(c)
  {
    c as int - '0' as int
  }

  /** The value of a string of decimal digits (0 for the empty string). */
  function DigitsValue(s: string): nat
    requires AllDigits(s)
  {
    if s == [] then 0 else DigitsValue(s[..|s| - 1]) * 10 + DigitValue(s[|s| - 1])
  }

  /** `n.toString()` for a natural number. */
  function NatToString(n: nat): (r: string)
    ensures |r| >= 1 && AllDigits(r)
    ensures n < 10 ==> |r| == 1
    ensures 10 <= n < 100 ==> |r| == 2
    ensures r[0] == '0' ==> n == 0
  {
    if n < 10 then [DigitChar(n)] else NatToString(n / 10) + [DigitChar(n % 10)]
  }

  /** The decimal rendering reads back as the number it renders. */
  lemma {:induction false} NatToStringRoundTrip(n: nat)
    ensures DigitsValue(NatToString(n)) == n
  {
    if n >= 10 {
      var s := NatToString(n);
      assert s[..|s| - 1] == NatToString(n / 10);
      NatToStringRoundTrip(n / 10);
    }
  }

  /** `s.padStart(width, fill)`. */
  function PadStart(s: string, width: nat, fill: char): (r: string)
    ensures |r| == if |s| >= width then |s| else width
    ensures r[|r| - |s|..] == s
    ensures forall i | 0 <= i < |r| - |s| :: r[i] == fill
  {
    if |s| >= width then s else seq(width - |s|, _ => fill) + s
  }

  /** `formatTime(seconds)` for a whole, non-negative number of seconds. */
  function FormatTime(seconds: nat): (r: string)
    ensures |r| >= 4 && r[|r| - 3] == ':'
    ensures r[0] == '0' ==> |r| == 4
  {
    NatToString(seconds / 60) + ":" + PadStart(NatToString(seconds % 60), 2, '0')
  }

  /** Reads `m:ss` back: digits, a colon, two digits under 60. */
  function ParseTime(r: string): Option<nat>
  {
    if |r| < 4 || r[|r| - 3] != ':' || !AllDigits(r[..|r| - 3]) || !AllDigits(r[|r| - 2..]) then None
    else
      var sec := DigitsValue(r[|r| - 2..]);
      if sec >= 60 then None else Some(DigitsValue(r[..|r| - 3]) * 60 + sec)
  }

  /** The two-character seconds field reads back as the seconds. */
  lemma SecondsFieldRoundTrip(sec: nat)
    requires sec < 60
    ensures var f := PadStart(NatToString(sec), 2, '0');
            |f| == 2 && AllDigits(f) && DigitsValue(f) == sec
  {
    var s := NatToString(sec);
    NatToStringRoundTrip(sec);
    var f := PadStart(s, 2, '0');
    if |s| == 1 {
      assert f == ['0'] + s;
      assert f[..1] == ['0'];
      assert DigitsValue(f) == DigitsValue(['0']) * 10 + DigitValue(s[0]);
      assert DigitsValue(s) == DigitsValue(s[..0]) * 10 + DigitValue(s[0]);
    }
  }

  /** A minutes field, a colon and a valid seconds field read back as their total. */
  lemma ParseFields(m: string, f: string)
    requires |m| >= 1 && AllDigits(m)
    requires |f| == 2 && AllDigits(f) && DigitsValue(f) < 60
    ensures ParseTime(m + ":" + f) == Some(DigitsValue(m) * 60 + DigitsValue(f))
  {
    var r := m + ":" + f;
    assert r[..|r| - 3] == m;
    assert r[|r| - 2..] == f;
  }

  /** Every rendering reads back as the seconds it renders. */
  lemma FormatTimeRoundTrip(seconds: nat)
    ensures ParseTime(FormatTime(seconds)) == Some(seconds)
  {
    var min, sec := seconds / 60, seconds % 60;
    var m, f := NatToString(min), PadStart(NatToString(sec), 2, '0');
    assert ParseTime(m + ":" + f) == Some(min * 60 + sec) by {
      SecondsFieldRoundTrip(sec);
      NatToStringRoundTrip(min);
      ParseFields(m, f);
    }
    assert min * 60 + sec == seconds;
  }

  /** Different numbers of seconds never render alike. */
  lemma FormatTimeInjective(a: nat, b: nat)
    ensures FormatTime(a) == FormatTime(b) ==> a == b
  {
    FormatTimeRoundTrip(a);
    FormatTimeRoundTrip(b);
  }
}
