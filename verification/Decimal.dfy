/** Decimal integers, printed as strconv.Itoa prints them and read as strconv.ParseInt reads a JSON number. */
module Decimal {
  import opened Outcomes
  import opened JsonText

  const MIN_INT := -0x8000_0000_0000_0000
  const MAX_INT := 0x7FFF_FFFF_FFFF_FFFF

  function Digit(d: nat): (c: char)
    requires d < 10
  {
    ('0' as nat + d) as char
  }

  function PrintNat(n: nat): (s: string)
    ensures Digits(s) && (s[0] == '0' ==> |s| == 1)
    ensures n > 0 ==> s[0] != '0'
  {
    if n < 10 then [Digit(n)] else PrintNat(n / 10) + [Digit(n % 10)]
  }

  function PrintInt(n: int): string {
    if n < 0 then "-" + PrintNat(-n) else PrintNat(n)
  }

  function DigitValue(c: char): (d: nat)
    requires IsDigit(c)
  {
    c as int - '0' as int
  }

  function NatValue(s: string): nat
    requires forall i :: 0 <= i < |s| ==> IsDigit(s[i])
  {
    if s == "" then 0
    else 10 * NatValue(s[..|s| - 1]) + DigitValue(s[|s| - 1])
  }

  /** A number literal as a Go int: no fraction, no exponent, and within 64 bits. */
  function ParseInt(s: string): Option<int> {
    var negative := s != "" && s[0] == '-';
    var t := if negative then s[1..] else s;
    if !Digits(t) then None
    else
      var n := (if negative then -1 else 1) * NatValue(t);
      if MIN_INT <= n <= MAX_INT then Some(n) else None
  }

  lemma {:induction false} NatBack(n: nat)
    ensures NatValue(PrintNat(n)) == n
  {
    if n >= 10 {
      NatBack(n / 10);
      var s := PrintNat(n);
      assert s[..|s| - 1] == PrintNat(n / 10);
    }
  }

  lemma IntBack(n: int)
    requires MIN_INT <= n <= MAX_INT
    ensures ParseInt(PrintInt(n)) == Some(n)
  {
    NatBack(if n < 0 then -n else n);
    if n < 0 {
      assert PrintInt(n)[1..] == PrintNat(-n);
    } else {
      assert PrintInt(n)[0] == PrintNat(n)[0];
      assert IsDigit(PrintNat(n)[0]);
    }
  }

  lemma {:induction false} NothingBefore(s: string, c: char, d: char)
    requires forall i :: 0 <= i < |s| ==> s[i] != c && s[i] != d
    ensures Before(s, c, d) == |s|
  {
    if s != "" {
      NothingBefore(s[1..], c, d);
    }
  }

  lemma DigitsAreNumber(t: string, s: string)
    requires Digits(t) && (t[0] == '0' ==> |t| == 1)
    requires s == t || s == "-" + t
    ensures ValidNumber(s)
  {
    assert IsDigit(t[0]);
    NothingBefore(t, 'e', 'E');
    NothingBefore(t, '.', '.');
    assert t[..|t|] == t;
    if s == "-" + t {
      assert s[1..] == t;
    }
  }

  lemma IntIsNumber(n: int)
    ensures ValidNumber(PrintInt(n))
  {
    DigitsAreNumber(PrintNat(if n < 0 then -n else n), PrintInt(n));
  }

  // ---------- Which literals are integers ----------

  /** n written in digits: digit by digit from the left, each place worth ten times the one after it. */
  lemma {:induction false} ValueGrows(s: string, c: char)
    requires (forall i :: 0 <= i < |s| ==> IsDigit(s[i])) && IsDigit(c)
    ensures (forall i :: 0 <= i < |s + [c]| ==> IsDigit((s + [c])[i]))
    ensures NatValue(s + [c]) == 10 * NatValue(s) + (c as int - 48)
  {
    assert (s + [c])[..|s|] == s;
  }

  /** The literals that decode into a Go int are an optional minus and decimal digits, within 64 bits; no fraction and
      no exponent, even if the number is whole. */
  lemma IntExactly(s: string, n: int)
    ensures ParseInt(s) == Some(n) <==>
            && -0x8000_0000_0000_0000 <= n <= 0x7FFF_FFFF_FFFF_FFFF
            && (var t := if s != "" && s[0] == '-' then s[1..] else s;
                && t != "" && (forall i :: 0 <= i < |t| ==> '0' <= t[i] <= '9')
                && n == if t == s then NatValue(t) as int else 0 - NatValue(t) as int)
  {
    var t := if s != "" && s[0] == '-' then s[1..] else s;
    assert s != "" && s[0] == '-' ==> |t| < |s|;
  }
}
