/**
 The JSON grammar of RFC 8259, written as the texts it generates: a value
 together with every choice its writer had, white space, spelling of
 characters and of numbers. The parser accepts these texts and no others.
 */
module JsonGrammar {
  import opened Outcomes
  import opened JsonText
  import opened JsonPrefix

  // ---------- Numbers (section 6) ----------

  datatype Exponent = Exponent(mark: char, sign: string, digits: string)

  datatype Numeral = Numeral(minus: bool, whole: string, fraction: Option<string>, exponent: Option<Exponent>)

  predicate SomeDigits(s: string) {
    s != "" && forall i :: 0 <= i < |s| ==> '0' <= s[i] <= '9'
  }

  predicate GoodNumeral(n: Numeral) {
    && SomeDigits(n.whole) && (|n.whole| > 1 ==> n.whole[0] != '0')
    && (n.fraction.Some? ==> SomeDigits(n.fraction.value))
    && (n.exponent.Some? ==>
          && n.exponent.value.mark in {'e', 'E'} && n.exponent.value.sign in {"", "+", "-"}
          && SomeDigits(n.exponent.value.digits))
  }

  function MantissaText(n: Numeral): string {
    if n.fraction.None? then n.whole else n.whole + ("." + n.fraction.value)
  }

  function UnsignedText(n: Numeral): string {
    if n.exponent.None? then MantissaText(n)
    else MantissaText(n) + ([n.exponent.value.mark] + (n.exponent.value.sign + n.exponent.value.digits))
  }

  function NumeralText(n: Numeral): string {
    if n.minus then "-" + UnsignedText(n) else UnsignedText(n)
  }

  lemma BeforeIs(s: string, c: char, d: char, n: nat)
    requires n <= |s| && (forall i :: 0 <= i < n ==> s[i] != c && s[i] != d)
    requires n < |s| ==> s[n] == c || s[n] == d
    ensures Before(s, c, d) == n
  {
  }

  lemma FractionIsValid(whole: string, f: string)
    requires SomeDigits(whole) && (|whole| > 1 ==> whole[0] != '0') && SomeDigits(f)
    ensures ValidMantissa(whole + ("." + f))
  {
    var m := whole + ("." + f);
    BeforeIs(m, '.', '.', |whole|);
    assert m[..|whole|] == whole && m[|whole| + 1..] == f;
  }

  lemma WholeIsValid(whole: string)
    requires SomeDigits(whole) && (|whole| > 1 ==> whole[0] != '0')
    ensures ValidMantissa(whole)
  {
    BeforeIs(whole, '.', '.', |whole|);
    assert whole[..|whole|] == whole;
  }

  lemma MantissaOf(m: string) returns (whole: string, f: Option<string>)
    requires ValidMantissa(m)
    ensures SomeDigits(whole) && (|whole| > 1 ==> whole[0] != '0') && (f.Some? ==> SomeDigits(f.value))
    ensures m == if f.None? then whole else whole + ("." + f.value)
  {
    var p := Before(m, '.', '.');
    whole := m[..p];
    assert whole[0] == m[0];
    if p < |m| {
      f := Some(m[p + 1..]);
      assert m == m[..p] + ("." + m[p + 1..]);
    } else {
      f := None;
    }
  }

  lemma ExponentIsValid(sign: string, digits: string)
    requires sign in {"", "+", "-"} && SomeDigits(digits)
    ensures ValidExponent(sign + digits)
  {
    if sign == "" {
      assert sign + digits == digits;
      assert digits[0] != '+' && digits[0] != '-';
    } else {
      assert (sign + digits)[1..] == digits;
    }
  }

  lemma ExponentOf(x: string) returns (sign: string, digits: string)
    requires ValidExponent(x)
    ensures sign in {"", "+", "-"} && SomeDigits(digits) && x == sign + digits
  {
    if x != "" && (x[0] == '+' || x[0] == '-') {
      sign, digits := x[..1], x[1..];
      assert sign == [x[0]];
    } else {
      sign, digits := "", x;
    }
  }

  lemma PowerIsValid(m: string, mark: char, x: string)
    requires ValidMantissa(m) && (forall i :: 0 <= i < |m| ==> m[i] != 'e' && m[i] != 'E')
    requires (mark == 'e' || mark == 'E') && ValidExponent(x)
    ensures ValidUnsigned(m + ([mark] + x))
  {
    var t := m + ([mark] + x);
    BeforeIs(t, 'e', 'E', |m|);
    assert t[..|m|] == m && t[|m| + 1..] == x;
  }

  lemma NoPowerIsValid(m: string)
    requires ValidMantissa(m) && (forall i :: 0 <= i < |m| ==> m[i] != 'e' && m[i] != 'E')
    ensures ValidUnsigned(m)
  {
    BeforeIs(m, 'e', 'E', |m|);
    assert m[..|m|] == m;
  }

  lemma CutAt(t: string, n: nat)
    requires n < |t|
    ensures t == t[..n] + ([t[n]] + t[n + 1..])
  {
  }

  lemma PowerOf(t: string) returns (m: string, e: Option<Exponent>)
    requires ValidUnsigned(t)
    ensures ValidMantissa(m)
    ensures e.Some? ==> e.value.mark in {'e', 'E'} && e.value.sign in {"", "+", "-"} && SomeDigits(e.value.digits)
    ensures t == if e.None? then m else m + ([e.value.mark] + (e.value.sign + e.value.digits))
  {
    var n := Before(t, 'e', 'E');
    m := t[..n];
    if n < |t| {
      var sign, digits := ExponentOf(t[n + 1..]);
      e := Some(Exponent(t[n], sign, digits));
      CutAt(t, n);
    } else {
      e := None;
    }
  }

  /** Every character is one of a number's, and the first a digit. */
  predicate NumberText(t: string) {
    t != "" && IsDigit(t[0]) && forall i :: 0 <= i < |t| ==> IsNumberChar(t[i])
  }

  lemma MantissaIsValid(n: Numeral)
    requires GoodNumeral(n)
    ensures var m := MantissaText(n);
            ValidMantissa(m) && NumberText(m) && forall i :: 0 <= i < |m| ==> m[i] != 'e' && m[i] != 'E'
  {
    if n.fraction.Some? {
      FractionIsValid(n.whole, n.fraction.value);
      assert forall i :: 0 <= i < |n.fraction.value| ==> IsDigit(n.fraction.value[i]);
    } else {
      WholeIsValid(n.whole);
    }
  }

  lemma PowerChars(m: string, mark: char, sign: string, digits: string)
    requires NumberText(m) && mark in {'e', 'E'} && sign in {"", "+", "-"} && SomeDigits(digits)
    ensures NumberText(m + ([mark] + (sign + digits)))
  {
    assert forall i :: 0 <= i < |sign| ==> IsNumberChar(sign[i]);
    assert forall i :: 0 <= i < |sign + digits| ==> IsNumberChar((sign + digits)[i]);
  }

  lemma UnsignedIsValid(n: Numeral)
    requires GoodNumeral(n)
    ensures ValidUnsigned(UnsignedText(n)) && NumberText(UnsignedText(n))
  {
    MantissaIsValid(n);
    if n.exponent.Some? {
      var e := n.exponent.value;
      ExponentIsValid(e.sign, e.digits);
      PowerIsValid(MantissaText(n), e.mark, e.sign + e.digits);
      PowerChars(MantissaText(n), e.mark, e.sign, e.digits);
    } else {
      NoPowerIsValid(MantissaText(n));
    }
  }

  lemma SignIsValid(t: string)
    requires ValidUnsigned(t) && NumberText(t)
    ensures ValidNumber(t) && ValidNumber("-" + t)
  {
    assert t[0] != '-' && ("-" + t)[1..] == t;
  }

  lemma NumeralIsValid(n: Numeral)
    requires GoodNumeral(n)
    ensures ValidNumber(NumeralText(n))
  {
    UnsignedIsValid(n);
    SignIsValid(UnsignedText(n));
  }

  lemma NumeralSpells(n: Numeral, t: string)
    requires t == if n.exponent.None? then MantissaText(n)
                  else MantissaText(n) + ([n.exponent.value.mark] + (n.exponent.value.sign + n.exponent.value.digits))
    ensures NumeralText(n) == if n.minus then "-" + t else t
  {
  }

  lemma ValidIsNumeral(s: string) returns (n: Numeral)
    requires ValidNumber(s)
    ensures GoodNumeral(n) && NumeralText(n) == s
  {
    var minus := s != "" && s[0] == '-';
    var t := if minus then s[1..] else s;
    var m, e := PowerOf(t);
    var whole, f := MantissaOf(m);
    n := Numeral(minus, whole, f, e);
    assert MantissaText(n) == m;
    NumeralSpells(n, t);
    assert minus ==> s == "-" + t;
  }

  // ---------- Strings (section 7) ----------

  /** One character of a string: itself, a two-character escape, a \u escape, two of them for a surrogate pair, or
      one that is half of no pair. */
  datatype Spelling =
    | Plain(c: char)
    | Letter(letter: char)
    | Unit(ds: string)
    | Surrogates(high: string, low: string)
    | Lone(ds: string)

  function HexDigitValue(c: char): nat
    requires IsHex(c)
  {
    if '0' <= c <= '9' then c as nat - '0' as nat
    else if c <= 'F' then 10 + (c as nat - 'A' as nat)
    else 10 + (c as nat - 'a' as nat)
  }

  predicate IsHex(c: char) {
    '0' <= c <= '9' || 'A' <= c <= 'F' || 'a' <= c <= 'f'
  }

  predicate FourHex(ds: string) {
    |ds| == 4 && forall i :: 0 <= i < 4 ==> IsHex(ds[i])
  }

  function HexNumber(ds: string): nat
    requires FourHex(ds)
  {
    HexDigitValue(ds[0]) * 0x1000 + HexDigitValue(ds[1]) * 0x100 + HexDigitValue(ds[2]) * 0x10 + HexDigitValue(ds[3])
  }

  predicate HighUnit(ds: string) {
    FourHex(ds) && 0xD800 <= HexNumber(ds) < 0xDC00
  }

  predicate LowUnit(ds: string) {
    FourHex(ds) && 0xDC00 <= HexNumber(ds) < 0xE000
  }

  predicate GoodSpelling(x: Spelling) {
    match x
    case Plain(c) => c >= ' ' && c != '"' && c != '\\'
    case Letter(l) => l in {'"', '\\', '/', 'b', 'f', 'n', 'r', 't'}
    case Unit(ds) => FourHex(ds) && !HighUnit(ds) && !LowUnit(ds)
    case Surrogates(high, low) => HighUnit(high) && LowUnit(low)
    case Lone(ds) => HighUnit(ds) || LowUnit(ds)
  }

  function SpelledChar(x: Spelling): char
    requires GoodSpelling(x)
  {
    match x
    case Plain(c) => c
    case Letter(l) =>
      (match l
       case 'b' => '\U{8}'
       case 'f' => '\U{C}'
       case 'n' => '\U{A}'
       case 'r' => '\U{D}'
       case 't' => '\U{9}'
       case _ => l)
    case Unit(ds) => HexNumber(ds) as char
    case Surrogates(high, low) => (0x1_0000 + (HexNumber(high) - 0xD800) * 0x400 + (HexNumber(low) - 0xDC00)) as char
    case Lone(_) => '\U{FFFD}'
  }

  function SpellingText(x: Spelling): string {
    match x
    case Plain(c) => [c]
    case Letter(l) => "\\" + [l]
    case Unit(ds) => "\\u" + ds
    case Surrogates(high, low) => ("\\u" + high) + ("\\u" + low)
    case Lone(ds) => "\\u" + ds
  }

  /** Half pairs side by side would be a pair. */
  predicate GoodSpellings(xs: seq<Spelling>) {
    && (forall i :: 0 <= i < |xs| ==> GoodSpelling(xs[i]))
    && (forall i :: 0 <= i < |xs| - 1 ==>
          !(xs[i].Lone? && HighUnit(xs[i].ds) && xs[i + 1].Lone? && LowUnit(xs[i + 1].ds)))
  }

  function SpelledString(xs: seq<Spelling>): string
    requires forall i :: 0 <= i < |xs| ==> GoodSpelling(xs[i])
  {
    if xs == [] then "" else [SpelledChar(xs[0])] + SpelledString(xs[1..])
  }

  /** The spelled characters, the closing quote, and what follows it. */
  function SpelledOn(xs: seq<Spelling>, rest: string): string {
    if xs == [] then "\"" + rest else SpellingText(xs[0]) + SpelledOn(xs[1..], rest)
  }

  lemma HexIsHex(c: char)
    ensures HexValue(c) == if IsHex(c) then Some(HexDigitValue(c)) else None
    ensures IsHex(c) ==> HexDigitValue(c) < 16
  {
  }

  lemma UnitReads(ds: string, rest: string)
    requires FourHex(ds)
    ensures CodeUnit("\\u" + ds + rest) == Some(HexNumber(ds)) && ("\\u" + ds + rest)[6..] == rest
  {
    var s := "\\u" + ds + rest;
    assert s[2] == ds[0] && s[3] == ds[1] && s[4] == ds[2] && s[5] == ds[3];
    HexIsHex(ds[0]);
    HexIsHex(ds[1]);
    HexIsHex(ds[2]);
    HexIsHex(ds[3]);
  }

  lemma UnitOf(s: string) returns (ds: string)
    requires CodeUnit(s).Some?
    ensures FourHex(ds) && HexNumber(ds) == CodeUnit(s).value && s == "\\u" + ds + s[6..]
  {
    ds := s[2..6];
    HexIsHex(s[2]);
    HexIsHex(s[3]);
    HexIsHex(s[4]);
    HexIsHex(s[5]);
    assert forall i :: 0 <= i < 4 ==> ds[i] == s[i + 2];
  }

  lemma HexNumberFits(ds: string)
    requires FourHex(ds)
    ensures HexNumber(ds) < 0x1_0000
  {
    HexIsHex(ds[0]);
    HexIsHex(ds[1]);
    HexIsHex(ds[2]);
    HexIsHex(ds[3]);
  }

  // ---------- Reading strings ----------

  /** What a spelling leaves the next one to be: no second half for a first. */
  predicate Follows(x: Spelling, next: string) {
    x.Lone? && HighUnit(x.ds) ==>
      CodeUnit(next).None? || CodeUnit(next).value < 0xDC00 || 0xE000 <= CodeUnit(next).value
  }

  lemma LoneReads(ds: string, next: string)
    requires GoodSpelling(Lone(ds)) && Follows(Lone(ds), next)
    ensures ParseEscape("\\u" + ds + next) == Got('\U{FFFD}', next)
  {
    UnitReads(ds, next);
  }

  lemma PairReads(high: string, low: string, next: string)
    requires HighUnit(high) && LowUnit(low)
    ensures ParseEscape("\\u" + high + ("\\u" + low + next)) == Got(SpelledChar(Surrogates(high, low)), next)
  {
    UnitReads(high, "\\u" + low + next);
    UnitReads(low, next);
    var s := "\\u" + high + ("\\u" + low + next);
    assert s[12..] == s[6..][6..];
  }

  lemma PlainUnitReads(ds: string, next: string)
    requires GoodSpelling(Unit(ds))
    ensures ParseEscape("\\u" + ds + next) == Got(SpelledChar(Unit(ds)), next)
  {
    UnitReads(ds, next);
    HexNumberFits(ds);
  }

  lemma LetterReads(l: char, next: string)
    requires GoodSpelling(Letter(l))
    ensures ParseEscape("\\" + [l] + next) == Got(SpelledChar(Letter(l)), next)
  {
    var s := "\\" + [l] + next;
    assert s[1] == l && s[2..] == next;
  }

  lemma EscapeReads(x: Spelling, next: string)
    requires GoodSpelling(x) && !x.Plain? && Follows(x, next)
    ensures var s := SpellingText(x) + next; s[0] == '\\' && ParseEscape(s) == Got(SpelledChar(x), next)
  {
    match x {
      case Letter(l) => LetterReads(l, next);
      case Unit(ds) => PlainUnitReads(ds, next);
      case Surrogates(high, low) =>
        PairReads(high, low, next);
        RegroupFour("\\u", high, "\\u" + low, next);
      case Lone(ds) => LoneReads(ds, next);
    }
  }

  lemma RegroupFour(a: string, b: string, c: string, d: string)
    ensures (a + b) + c + d == a + b + (c + d)
  {
  }

  lemma EscapeThen(s: string, c: char, next: string, v: string, rest: string)
    requires s != "" && s[0] == '\\' && ParseEscape(s) == Got(c, next) && ParseChars(next) == Got(v, rest)
    ensures ParseChars(s) == Got([c] + v, rest)
  {
  }

  lemma PlainThen(c: char, next: string, v: string, rest: string)
    requires GoodSpelling(Plain(c)) && ParseChars(next) == Got(v, rest)
    ensures ParseChars([c] + next) == Got([c] + v, rest)
  {
    assert ([c] + next)[1..] == next;
  }

  /** A spelling in front of a string that reads on. */
  lemma SpellingReads(x: Spelling, next: string, v: string, rest: string)
    requires GoodSpelling(x) && Follows(x, next) && ParseChars(next) == Got(v, rest)
    ensures ParseChars(SpellingText(x) + next) == Got([SpelledChar(x)] + v, rest)
  {
    if x.Plain? {
      PlainThen(x.c, next, v, rest);
    } else {
      EscapeReads(x, next);
      EscapeThen(SpellingText(x) + next, SpelledChar(x), next, v, rest);
    }
  }

  lemma NoLowHere(xs: seq<Spelling>, rest: string)
    requires xs != [] ==> GoodSpelling(xs[0]) && !(xs[0].Lone? && LowUnit(xs[0].ds))
    ensures var u := CodeUnit(SpelledOn(xs, rest)); u.None? || u.value < 0xDC00 || 0xE000 <= u.value
  {
    if xs != [] {
      var next := SpelledOn(xs[1..], rest);
      match xs[0] {
        case Plain(c) =>
        case Letter(l) => assert SpelledOn(xs, rest)[1] == l;
        case Unit(ds) => UnitReads(ds, next);
        case Surrogates(high, low) =>
          assert SpelledOn(xs, rest) == "\\u" + high + ("\\u" + low + next);
          UnitReads(high, "\\u" + low + next);
        case Lone(ds) => UnitReads(ds, next);
      }
    }
  }

  lemma {:induction false} StringReads(xs: seq<Spelling>, rest: string)
    requires GoodSpellings(xs)
    ensures ParseChars(SpelledOn(xs, rest)) == Got(SpelledString(xs), rest)
  {
    if xs == [] {
      assert ("\"" + rest)[1..] == rest;
    } else {
      var ys := xs[1..];
      assert forall i :: 0 <= i < |ys| ==> ys[i] == xs[i + 1];
      StringReads(ys, rest);
      if xs[0].Lone? && HighUnit(xs[0].ds) {
        if ys != [] {
          assert !(xs[0].Lone? && HighUnit(xs[0].ds) && xs[0 + 1].Lone? && LowUnit(xs[0 + 1].ds));
        }
        NoLowHere(ys, rest);
      }
      SpellingReads(xs[0], SpelledOn(ys, rest), SpelledString(ys), rest);
    }
  }

  // ---------- What was read was written so ----------

  lemma EscapeWas(s: string) returns (x: Spelling)
    requires s != "" && s[0] == '\\' && ParseEscape(s).Got?
    ensures GoodSpelling(x) && SpelledChar(x) == ParseEscape(s).value && s == SpellingText(x) + ParseEscape(s).rest
    ensures Follows(x, ParseEscape(s).rest)
    ensures x.Letter? || x.Unit? || x.Surrogates? || x.Lone?
  {
    if s[1] == 'u' {
      x := UnitWas(s);
    } else {
      x := Letter(s[1]);
      assert s == "\\" + [s[1]] + s[2..];
    }
  }

  lemma UnitWas(s: string) returns (x: Spelling)
    requires |s| > 1 && s[0] == '\\' && s[1] == 'u' && ParseEscape(s).Got?
    ensures GoodSpelling(x) && SpelledChar(x) == ParseEscape(s).value && s == SpellingText(x) + ParseEscape(s).rest
    ensures Follows(x, ParseEscape(s).rest)
    ensures x.Unit? || x.Surrogates? || x.Lone?
  {
    var ds := UnitOf(s);
    var n := HexNumber(ds);
    if n < 0xD800 || 0xE000 <= n {
      x := Unit(ds);
    } else {
      var low := CodeUnit(s[6..]);
      if n < 0xDC00 && low.Some? && 0xDC00 <= low.value < 0xE000 {
        var es := UnitOf(s[6..]);
        x := Surrogates(ds, es);
        assert s[6..][6..] == s[12..];
        assert s == ("\\u" + ds) + ("\\u" + es) + s[12..];
      } else {
        x := Lone(ds);
      }
    }
  }

  lemma {:induction false} StringWas(s: string) returns (xs: seq<Spelling>)
    requires ParseChars(s).Got?
    ensures GoodSpellings(xs) && SpelledString(xs) == ParseChars(s).value && s == SpelledOn(xs, ParseChars(s).rest)
    decreases |s|
  {
    if s[0] == '"' {
      xs := [];
      assert s == "\"" + s[1..];
    } else {
      var next := (if s[0] == '\\' then ParseEscape(s) else Got(s[0], s[1..])).rest;
      var ys := StringWas(next);
      var x;
      if s[0] == '\\' {
        x := EscapeWas(s);
      } else {
        x := Plain(s[0]);
        assert s == [s[0]] + s[1..];
      }
      xs := [x] + ys;
      assert xs[1..] == ys;
      if x.Lone? && HighUnit(x.ds) && ys != [] && ys[0].Lone? && LowUnit(ys[0].ds) {
        UnitReads(ys[0].ds, SpelledOn(ys[1..], ParseChars(s).rest));
        assert false;
      }
      PrependGood(x, ys);
    }
  }

  lemma PrependGood(x: Spelling, ys: seq<Spelling>)
    requires GoodSpelling(x) && GoodSpellings(ys)
    requires ys != [] ==> !(x.Lone? && HighUnit(x.ds) && ys[0].Lone? && LowUnit(ys[0].ds))
    ensures GoodSpellings([x] + ys)
  {
    var xs := [x] + ys;
    forall i | 0 <= i < |xs| - 1
      ensures !(xs[i].Lone? && HighUnit(xs[i].ds) && xs[i + 1].Lone? && LowUnit(xs[i + 1].ds))
    {
      assert xs[i + 1] == ys[i];
      if i > 0 {
        assert xs[i] == ys[i - 1] && xs[i + 1] == ys[i - 1 + 1];
      }
    }
  }

  // ---------- Values with their white space (sections 2 to 5) ----------

  /** Space, tab, line feed and carriage return. */
  predicate Blank(s: string) {
    forall i :: 0 <= i < |s| ==> s[i] in {'\U{20}', '\U{9}', '\U{A}', '\U{D}'}
  }

  /** A value as it was laid out. A gap is the white space at one place; an empty array or object has one inside. */
  datatype Laid =
    | LaidWord(word: Json)
    | LaidNumber(n: Numeral)
    | LaidString(xs: seq<Spelling>)
    | LaidArray(gap: string, elems: seq<LaidElem>)
    | LaidObject(gap: string, members: seq<LaidMember>)

  datatype LaidElem = LaidElem(before: string, value: Laid, after: string)

  datatype LaidMember = LaidMember(
    before: string, key: seq<Spelling>, colon: string, between: string, value: Laid, after: string)

  predicate GoodLaid(l: Laid) {
    match l
    case LaidWord(j) => j.Null? || j.Bool?
    case LaidNumber(n) => GoodNumeral(n)
    case LaidString(xs) => GoodSpellings(xs)
    case LaidArray(gap, es) =>
      Blank(gap) && forall i :: 0 <= i < |es| ==> Blank(es[i].before) && Blank(es[i].after) && GoodLaid(es[i].value)
    case LaidObject(gap, ms) =>
      Blank(gap) && forall i :: 0 <= i < |ms| ==>
        && Blank(ms[i].before) && Blank(ms[i].colon) && Blank(ms[i].between) && Blank(ms[i].after)
        && GoodSpellings(ms[i].key) && GoodLaid(ms[i].value)
  }

  predicate GoodElem(e: LaidElem) {
    Blank(e.before) && Blank(e.after) && GoodLaid(e.value)
  }

  predicate GoodMember(m: LaidMember) {
    && Blank(m.before) && Blank(m.colon) && Blank(m.between) && Blank(m.after)
    && GoodSpellings(m.key) && GoodLaid(m.value)
  }

  function LaidValue(l: Laid): Json
    requires GoodLaid(l)
    decreases l
  {
    match l
    case LaidWord(j) => j
    case LaidNumber(n) => Number(NumeralText(n))
    case LaidString(xs) => Str(SpelledString(xs))
    case LaidArray(_, es) => Array(ElemValues(es))
    case LaidObject(_, ms) => Object(MemberValues(ms))
  }

  function ElemValues(es: seq<LaidElem>): seq<Json>
    requires forall i :: 0 <= i < |es| ==> GoodElem(es[i])
    decreases es
  {
    if es == [] then []
    else
      assert GoodElem(es[0]);
      [LaidValue(es[0].value)] + ElemValues(es[1..])
  }

  function MemberValues(ms: seq<LaidMember>): seq<Member>
    requires forall i :: 0 <= i < |ms| ==> GoodMember(ms[i])
    decreases ms
  {
    if ms == [] then []
    else
      assert GoodMember(ms[0]);
      [Member(SpelledString(ms[0].key), LaidValue(ms[0].value))] + MemberValues(ms[1..])
  }

  function WordText(j: Json): string {
    if j.Null? then "null" else if j == Bool(true) then "true" else "false"
  }

  /** The text of a value, and what follows it. */
  function LaidOn(l: Laid, rest: string): string
    decreases l
  {
    match l
    case LaidWord(j) => WordText(j) + rest
    case LaidNumber(n) => NumeralText(n) + rest
    case LaidString(xs) => "\"" + SpelledOn(xs, rest)
    case LaidArray(gap, es) => "[" + if es == [] then gap + ("]" + rest) else ElemsOn(es, rest)
    case LaidObject(gap, ms) => "{" + if ms == [] then gap + ("}" + rest) else MembersOn(ms, rest)
  }

  function ElemsOn(es: seq<LaidElem>, rest: string): string
    requires es != []
    decreases es
  {
    es[0].before + LaidOn(es[0].value, es[0].after + if |es| == 1 then "]" + rest else "," + ElemsOn(es[1..], rest))
  }

  function MembersOn(ms: seq<LaidMember>, rest: string): string
    requires ms != []
    decreases ms
  {
    var m := ms[0];
    var more := m.after + if |ms| == 1 then "}" + rest else "," + MembersOn(ms[1..], rest);
    m.before + ("\"" + SpelledOn(m.key, m.colon + (":" + (m.between + LaidOn(m.value, more)))))
  }

  lemma {:induction false} BlankSkipped(gap: string, s: string)
    requires Blank(gap) && (s != "" ==> !IsSpace(s[0]))
    ensures SkipSpace(gap + s) == s
  {
    if gap == "" {
      assert gap + s == s;
    } else {
      assert gap[0] in {'\U{20}', '\U{9}', '\U{A}', '\U{D}'};
      assert (gap + s)[1..] == gap[1..] + s;
      BlankSkipped(gap[1..], s);
    }
  }

  lemma {:induction false} SkippedBlank(s: string) returns (gap: string)
    ensures Blank(gap) && s == gap + SkipSpace(s)
  {
    if s != "" && IsSpace(s[0]) {
      var more := SkippedBlank(s[1..]);
      gap := [s[0]] + more;
    } else {
      gap := "";
    }
  }

  lemma BlankMarkEnds(gap: string, mark: char, x: string)
    requires Blank(gap) && IsMark(mark)
    ensures Ends(gap + ([mark] + x))
  {
    MarkEnds(gap, mark, x);
  }

  // ---------- Reading values ----------

  lemma LaidStarts(l: Laid, rest: string)
    requires GoodLaid(l)
    ensures LaidOn(l, rest) != "" && !IsSpace(LaidOn(l, rest)[0])
  {
    if l.LaidNumber? {
      UnsignedIsValid(l.n);
      assert LaidOn(l, rest)[0] == NumeralText(l.n)[0];
    }
  }

  lemma {:induction false} GapReads(gap: string, l: Laid, rest: string)
    requires Blank(gap) && GoodLaid(l) && (l.LaidNumber? ==> Ends(rest))
    ensures ParseValue(gap + LaidOn(l, rest)) == Got(LaidValue(l), rest)
    decreases l, 1
  {
    var s := LaidOn(l, rest);
    LaidStarts(l, rest);
    ValueReads(l, rest);
    BlankSkipped(gap, s);
    BlankSkipped("", s);
    assert "" + s == s;
    SkipsAlike(gap + s, s);
  }

  lemma WordReads(j: Json, rest: string)
    requires j.Null? || j.Bool?
    ensures ParseValue(WordText(j) + rest) == Got(j, rest)
  {
    WordStep(j, rest);
  }

  lemma {:induction false} ValueReads(l: Laid, rest: string)
    requires GoodLaid(l) && (l.LaidNumber? ==> Ends(rest))
    ensures ParseValue(LaidOn(l, rest)) == Got(LaidValue(l), rest)
    decreases l, 0
  {
    match l {
      case LaidWord(j) => WordReads(j, rest);
      case LaidNumber(n) =>
        NumeralIsValid(n);
        NumberStep(NumeralText(n), rest);
      case LaidString(xs) =>
        StringReads(xs, rest);
        QuoteStep(SpelledOn(xs, rest));
      case LaidArray(gap, es) => ArrayReads(gap, es, rest);
      case LaidObject(gap, ms) => ObjectReads(gap, ms, rest);
    }
  }

  lemma {:induction false} ArrayReads(gap: string, es: seq<LaidElem>, rest: string)
    requires Blank(gap) && forall i :: 0 <= i < |es| ==> GoodElem(es[i])
    ensures ParseValue(LaidOn(LaidArray(gap, es), rest)) == Got(Array(ElemValues(es)), rest)
    decreases es, 1
  {
    var s := LaidOn(LaidArray(gap, es), rest);
    if es == [] {
      BlankSkipped(gap, "]" + rest);
      assert s[1..] == gap + ("]" + rest);
      EmptyArrayAt(s, rest);
    } else {
      ElemsRead(es, rest);
      assert s[1..] == ElemsOn(es, rest);
      ArrayAt(s, ElemValues(es), rest);
    }
  }

  lemma {:induction false} ObjectReads(gap: string, ms: seq<LaidMember>, rest: string)
    requires Blank(gap) && forall i :: 0 <= i < |ms| ==> GoodMember(ms[i])
    ensures ParseValue(LaidOn(LaidObject(gap, ms), rest)) == Got(Object(MemberValues(ms)), rest)
    decreases ms, 1
  {
    var s := LaidOn(LaidObject(gap, ms), rest);
    if ms == [] {
      BlankSkipped(gap, "}" + rest);
      assert s[1..] == gap + ("}" + rest);
      EmptyObjectAt(s, rest);
    } else {
      MembersRead(ms, rest);
      assert s[1..] == MembersOn(ms, rest);
      ObjectAt(s, MemberValues(ms), rest);
    }
  }

  lemma {:induction false} ElemsRead(es: seq<LaidElem>, rest: string)
    requires es != [] && forall i :: 0 <= i < |es| ==> GoodElem(es[i])
    ensures ParseElems(ElemsOn(es, rest)) == Got(ElemValues(es), rest)
    decreases es, 0
  {
    var e := es[0];
    if |es| == 1 {
      var a := e.after + ("]" + rest);
      BlankMarkEnds(e.after, ']', rest);
      GapReads(e.before, e.value, a);
      BlankSkipped(e.after, "]" + rest);
      LastElemAt(ElemsOn(es, rest), LaidValue(e.value), a, rest);
      assert es[1..] == [] && ElemValues(es) == [LaidValue(e.value)];
    } else {
      var t := ElemsOn(es[1..], rest);
      var a := e.after + ("," + t);
      ElemsRead(es[1..], rest);
      BlankMarkEnds(e.after, ',', t);
      GapReads(e.before, e.value, a);
      BlankSkipped(e.after, "," + t);
      FirstElemAt(ElemsOn(es, rest), LaidValue(e.value), a, t, ElemValues(es[1..]), rest);
    }
  }

  /** A member up to what follows its value. */
  function MemberOn(m: LaidMember, more: string): string {
    m.before + ("\"" + SpelledOn(m.key, m.colon + (":" + (m.between + LaidOn(m.value, more)))))
  }

  lemma {:induction false} MemberReads(m: LaidMember, more: string)
    requires GoodMember(m) && (m.value.LaidNumber? ==> Ends(more))
    ensures StartsMember(MemberOn(m, more), SpelledString(m.key), LaidValue(m.value), more)
    decreases m, 1
  {
    var value := m.between + LaidOn(m.value, more);
    var colon := m.colon + (":" + value);
    GapReads(m.between, m.value, more);
    BlankSkipped(m.colon, ":" + value);
    StringReads(m.key, colon);
    BlankSkipped(m.before, "\"" + SpelledOn(m.key, colon));
    MemberStarts(MemberOn(m, more), SpelledOn(m.key, colon), SpelledString(m.key), colon, value,
      LaidValue(m.value), more);
  }

  lemma MemberStarts(text: string, q: string, key: string, a: string, t: string, v: Json, b: string)
    requires SkipSpace(text) == "\"" + q && ParseChars(q) == Got(key, a)
    requires SkipSpace(a) == ":" + t && ParseValue(t) == Got(v, b)
    ensures StartsMember(text, key, v, b)
  {
    assert ("\"" + q)[1..] == q && (":" + t)[1..] == t;
  }

  lemma {:induction false} MembersRead(ms: seq<LaidMember>, rest: string)
    requires ms != [] && forall i :: 0 <= i < |ms| ==> GoodMember(ms[i])
    ensures ParseMembers(MembersOn(ms, rest)) == Got(MemberValues(ms), rest)
    decreases ms, 0
  {
    var m := ms[0];
    if |ms| == 1 {
      var a := m.after + ("}" + rest);
      BlankMarkEnds(m.after, '}', rest);
      MemberReads(m, a);
      BlankSkipped(m.after, "}" + rest);
      LastMemberAt(MemberOn(m, a), SpelledString(m.key), LaidValue(m.value), a, rest);
      assert ms[1..] == [] && MemberValues(ms) == [Member(SpelledString(m.key), LaidValue(m.value))];
    } else {
      var t := MembersOn(ms[1..], rest);
      var a := m.after + ("," + t);
      MembersRead(ms[1..], rest);
      BlankMarkEnds(m.after, ',', t);
      MemberReads(m, a);
      BlankSkipped(m.after, "," + t);
      FirstMemberAt(MemberOn(m, a), SpelledString(m.key), LaidValue(m.value), a, t, MemberValues(ms[1..]), rest);
    }
  }

  // ---------- What was read was laid out so ----------

  lemma {:induction false} ValueWas(text: string) returns (gap: string, l: Laid)
    requires ParseValue(text).Got?
    ensures Blank(gap) && GoodLaid(l) && LaidValue(l) == ParseValue(text).value
    ensures text == gap + LaidOn(l, ParseValue(text).rest)
    decreases |text|, 2
  {
    gap := SkippedBlank(text);
    SkipsAlike(text, SkipSpace(text));
    l := CoreWas(SkipSpace(text));
  }

  lemma {:induction false} CoreWas(s: string) returns (l: Laid)
    requires s != "" && !IsSpace(s[0]) && ParseValue(s).Got?
    ensures GoodLaid(l) && LaidValue(l) == ParseValue(s).value && s == LaidOn(l, ParseValue(s).rest)
    decreases |s|, 1
  {
    match s[0] {
      case '{' => l := ObjectWas(s);
      case '[' => l := ArrayWas(s);
      case '"' => l := QuotedWas(s);
      case 'n' => l := WordWas(s, Null);
      case 't' => l := WordWas(s, Bool(true));
      case 'f' => l := WordWas(s, Bool(false));
      case _ => l := NumberWas(s);
    }
  }

  lemma QuotedWas(s: string) returns (l: Laid)
    requires s != "" && s[0] == '"' && ParseValue(s).Got?
    ensures GoodLaid(l) && LaidValue(l) == ParseValue(s).value && s == LaidOn(l, ParseValue(s).rest)
  {
    var xs := StringWas(s[1..]);
    l := LaidString(xs);
    assert s == "\"" + s[1..];
    QuoteStep(s[1..]);
  }

  lemma WordWas(s: string, j: Json) returns (l: Laid)
    requires j in {Null, Bool(true), Bool(false)} && s != "" && s[0] == WordText(j)[0] && ParseValue(s).Got?
    ensures GoodLaid(l) && LaidValue(l) == ParseValue(s).value && s == LaidOn(l, ParseValue(s).rest)
  {
    l := LaidWord(j);
    var w := WordText(j);
    assert s == s[..|w|] + s[|w|..];
  }

  lemma NumberWas(s: string) returns (l: Laid)
    requires s != "" && !IsSpace(s[0]) && s[0] !in {'{', '[', '"', 'n', 't', 'f'} && ParseValue(s).Got?
    ensures GoodLaid(l) && LaidValue(l) == ParseValue(s).value && s == LaidOn(l, ParseValue(s).rest)
  {
    NumberParts(s);
    var lit := s[..NumberPrefix(s)];
    var n := ValidIsNumeral(lit);
    l := LaidNumber(n);
    assert s == lit + s[NumberPrefix(s)..];
  }

  lemma ArrayLaid(es: seq<LaidElem>, rest: string)
    requires es != [] && forall i :: 0 <= i < |es| ==> GoodElem(es[i])
    ensures var l := LaidArray("", es);
            GoodLaid(l) && LaidValue(l) == Array(ElemValues(es)) && LaidOn(l, rest) == "[" + ElemsOn(es, rest)
  {
    assert forall i :: 0 <= i < |es| ==> GoodElem(es[i]);
  }

  lemma ObjectLaid(ms: seq<LaidMember>, rest: string)
    requires ms != [] && forall i :: 0 <= i < |ms| ==> GoodMember(ms[i])
    ensures var l := LaidObject("", ms);
            GoodLaid(l) && LaidValue(l) == Object(MemberValues(ms)) && LaidOn(l, rest) == "{" + MembersOn(ms, rest)
  {
    assert forall i :: 0 <= i < |ms| ==> GoodMember(ms[i]);
  }

  lemma EmptyArrayWas(s: string) returns (l: Laid)
    requires s != "" && s[0] == '[' && IsEmpty(s, ']')
    ensures ParseValue(s).Got?
    ensures GoodLaid(l) && LaidValue(l) == ParseValue(s).value && s == LaidOn(l, ParseValue(s).rest)
  {
    var gap := SkippedBlank(s[1..]);
    var t := SkipSpace(s[1..]);
    l := LaidArray(gap, []);
    assert s == "[" + s[1..] && t == "]" + t[1..];
    EmptyArrayAt(s, t[1..]);
    assert LaidValue(l) == Array([]);
  }

  lemma EmptyObjectWas(s: string) returns (l: Laid)
    requires s != "" && s[0] == '{' && IsEmpty(s, '}')
    ensures ParseValue(s).Got?
    ensures GoodLaid(l) && LaidValue(l) == ParseValue(s).value && s == LaidOn(l, ParseValue(s).rest)
  {
    var gap := SkippedBlank(s[1..]);
    var t := SkipSpace(s[1..]);
    l := LaidObject(gap, []);
    assert s == "{" + s[1..] && t == "}" + t[1..];
    EmptyObjectAt(s, t[1..]);
    assert LaidValue(l) == Object([]);
  }

  lemma {:induction false} ArrayWas(s: string) returns (l: Laid)
    requires s != "" && s[0] == '[' && ParseValue(s).Got?
    ensures GoodLaid(l) && LaidValue(l) == ParseValue(s).value && s == LaidOn(l, ParseValue(s).rest)
    decreases |s|, 0
  {
    if IsEmpty(s, ']') {
      l := EmptyArrayWas(s);
    } else {
      ArrayParts(s);
      var es := ElemsWas(s[1..]);
      l := LaidArray("", es);
      ArrayLaid(es, ParseValue(s).rest);
      assert s == "[" + s[1..];
    }
  }

  lemma {:induction false} ObjectWas(s: string) returns (l: Laid)
    requires s != "" && s[0] == '{' && ParseValue(s).Got?
    ensures GoodLaid(l) && LaidValue(l) == ParseValue(s).value && s == LaidOn(l, ParseValue(s).rest)
    decreases |s|, 0
  {
    if IsEmpty(s, '}') {
      l := EmptyObjectWas(s);
    } else {
      ObjectParts(s);
      var ms := MembersWas(s[1..]);
      l := LaidObject("", ms);
      ObjectLaid(ms, ParseValue(s).rest);
      assert s == "{" + s[1..];
    }
  }

  function ElemOn(e: LaidElem, more: string): string {
    e.before + LaidOn(e.value, e.after + more)
  }

  lemma OneElem(e: LaidElem, rest: string) returns (es: seq<LaidElem>)
    requires GoodElem(e)
    ensures es == [e] && ElemValues(es) == [LaidValue(e.value)] && ElemsOn(es, rest) == ElemOn(e, "]" + rest)
  {
    es := [e];
    assert es[1..] == [];
  }

  lemma MoreElems(e: LaidElem, more: seq<LaidElem>, rest: string) returns (es: seq<LaidElem>)
    requires GoodElem(e) && more != [] && forall i :: 0 <= i < |more| ==> GoodElem(more[i])
    ensures es == [e] + more && forall i :: 0 <= i < |es| ==> GoodElem(es[i])
    ensures ElemValues(es) == [LaidValue(e.value)] + ElemValues(more)
    ensures ElemsOn(es, rest) == ElemOn(e, "," + ElemsOn(more, rest))
  {
    es := [e] + more;
    assert es[1..] == more;
  }

  lemma {:induction false} ElemWas(text: string) returns (e: LaidElem)
    requires ParseValue(text).Got?
    ensures GoodElem(e) && LaidValue(e.value) == ParseValue(text).value
    ensures text == ElemOn(e, SkipSpace(ParseValue(text).rest))
    decreases |text|, 3
  {
    var before, l := ValueWas(text);
    var after := SkippedBlank(ParseValue(text).rest);
    e := LaidElem(before, l, after);
  }

  lemma ElemsStep(text: string)
    requires ParseElems(text).Got?
    ensures ParseValue(text).Got?
    ensures var s := SkipSpace(ParseValue(text).rest);
            && s != "" && s == [s[0]] + s[1..] && |s| < |text|
            && if s[0] == ','
               then ParseElems(s[1..]).Got? &&
                    ParseElems(text) ==
                    Got([ParseValue(text).value] + ParseElems(s[1..]).value, ParseElems(s[1..]).rest)
               else s[0] == ']' && ParseElems(text) == Got([ParseValue(text).value], s[1..])
  {
  }

  lemma {:induction false} ElemsWas(text: string) returns (es: seq<LaidElem>)
    requires ParseElems(text).Got?
    ensures es != [] && (forall i :: 0 <= i < |es| ==> GoodElem(es[i]))
    ensures ElemValues(es) == ParseElems(text).value && text == ElemsOn(es, ParseElems(text).rest)
    decreases |text|, 4
  {
    ElemsStep(text);
    var e := ElemWas(text);
    var s := SkipSpace(ParseValue(text).rest);
    if s[0] == ',' {
      var more := ElemsWas(s[1..]);
      es := MoreElems(e, more, ParseElems(text).rest);
    } else {
      es := OneElem(e, s[1..]);
    }
  }

  lemma {:induction false} MemberWas(text: string, key: string, v: Json, a: string, after: string)
    returns (m: LaidMember)
    requires StartsMember(text, key, v, a) && Blank(after)
    ensures GoodMember(m) && m.after == after && SpelledString(m.key) == key && LaidValue(m.value) == v
    ensures text == MemberOn(m, a)
    decreases |text|, 0
  {
    var before := SkippedBlank(text);
    var k := SkipSpace(text);
    var xs := StringWas(k[1..]);
    var b := ParseChars(k[1..]).rest;
    var colon := SkippedBlank(b);
    var c := SkipSpace(b);
    var between, l := ValueWas(c[1..]);
    m := LaidMember(before, xs, colon, between, l, after);
    assert k == "\"" + k[1..] && c == ":" + c[1..];
  }

  lemma OneMember(m: LaidMember, rest: string) returns (ms: seq<LaidMember>)
    requires GoodMember(m)
    ensures ms == [m] && MemberValues(ms) == [Member(SpelledString(m.key), LaidValue(m.value))]
    ensures MembersOn(ms, rest) == MemberOn(m, m.after + ("}" + rest))
  {
    ms := [m];
    assert ms[1..] == [];
  }

  lemma MoreMembers(m: LaidMember, more: seq<LaidMember>, rest: string) returns (ms: seq<LaidMember>)
    requires GoodMember(m) && more != [] && forall i :: 0 <= i < |more| ==> GoodMember(more[i])
    ensures ms == [m] + more && forall i :: 0 <= i < |ms| ==> GoodMember(ms[i])
    ensures MemberValues(ms) == [Member(SpelledString(m.key), LaidValue(m.value))] + MemberValues(more)
    ensures MembersOn(ms, rest) == MemberOn(m, m.after + ("," + MembersOn(more, rest)))
  {
    ms := [m] + more;
    assert ms[1..] == more;
  }

  lemma {:induction false} MembersWas(text: string) returns (ms: seq<LaidMember>)
    requires ParseMembers(text).Got?
    ensures ms != [] && (forall i :: 0 <= i < |ms| ==> GoodMember(ms[i]))
    ensures MemberValues(ms) == ParseMembers(text).value && text == MembersOn(ms, ParseMembers(text).rest)
    decreases |text|, 3
  {
    var q := ParseChars(SkipSpace(text)[1..]);
    var t := SkipSpace(q.rest)[1..];
    var v, a := ParseValue(t).value, ParseValue(t).rest;
    var after := SkippedBlank(a);
    var s := SkipSpace(a);
    var m := MemberWas(text, q.value, v, a, after);
    assert s == [s[0]] + s[1..];
    if s[0] == ',' {
      var more := MembersWas(s[1..]);
      ms := MoreMembers(m, more, ParseMembers(s[1..]).rest);
      FirstMemberAt(text, q.value, v, a, s[1..], ParseMembers(s[1..]).value, ParseMembers(s[1..]).rest);
    } else {
      ms := OneMember(m, s[1..]);
      LastMemberAt(text, q.value, v, a, s[1..]);
    }
  }

  // ---------- Documents ----------

  /** A text of the grammar and the value it stands for. */
  ghost predicate Written(text: string, j: Json) {
    exists before: string, l: Laid, after: string :: WrittenAs(text, j, before, l, after)
  }

  ghost predicate WrittenAs(text: string, j: Json, before: string, l: Laid, after: string) {
    Blank(before) && GoodLaid(l) && Blank(after) && text == before + LaidOn(l, after) && LaidValue(l) == j
  }

  lemma BlankEnds(gap: string)
    requires Blank(gap)
    ensures Ends(gap) && SkipSpace(gap) == ""
  {
    BlankSkipped(gap, "");
    assert gap + "" == gap;
    assert gap != "" ==> gap[0] in {'\U{20}', '\U{9}', '\U{A}', '\U{D}'};
  }

  lemma WrittenReads(text: string, j: Json, before: string, l: Laid, after: string)
    requires WrittenAs(text, j, before, l, after)
    ensures Parse(text) == Some(j)
  {
    BlankEnds(after);
    GapReads(before, l, after);
  }

  lemma {:induction false} NothingSkipped(gap: string)
    requires SkipSpace(gap) == ""
    ensures Blank(gap)
  {
    var g := SkippedBlank(gap);
    assert g + "" == g;
  }

  /** The parser reads exactly the texts of the grammar, each as the value it stands for: white space of the four
      kinds anywhere between tokens, any spelling of characters, and numbers in any form; and nothing else. */
  lemma ParseExactly(text: string, j: Json)
    ensures Parse(text) == Some(j) <==> Written(text, j)
  {
    if Parse(text) == Some(j) {
      var before, l := ValueWas(text);
      var after := ParseValue(text).rest;
      NothingSkipped(after);
      assert WrittenAs(text, j, before, l, after);
    }
    if Written(text, j) {
      var before: string, l: Laid, after: string :| WrittenAs(text, j, before, l, after);
      WrittenReads(text, j, before, l, after);
    }
  }
}
