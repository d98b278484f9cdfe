/**
 JSON text (RFC 8259) as Go's encoding/json prints and scans it: objects and
 arrays of sections 4 and 5, numbers of section 6, strings of section 7.
 */
module JsonText {
  import opened Outcomes

  datatype Member = Member(key: string, value: Json)

  /** A JSON value. An object keeps its members in the order of the text, repeats included.
      Foreign stands for a Go value that has no JSON form (a channel, a function, NaN). */
  datatype Json =
    | Null
    | Bool(b: bool)
    | Number(lit: string)
    | Str(s: string)
    | Array(elems: seq<Json>)
    | Object(members: seq<Member>)
    | Foreign

  // ---------- Numbers ----------

  predicate IsDigit(c: char) {
    '0' <= c <= '9'
  }

  predicate IsNumberChar(c: char) {
    IsDigit(c) || c in {'-', '+', '.', 'e', 'E'}
  }

  predicate Digits(s: string) {
    s != "" && forall i :: 0 <= i < |s| ==> IsDigit(s[i])
  }

  /** The length of the longest prefix of s that avoids both c and d. */
  function Before(s: string, c: char, d: char): (n: nat)
    ensures n <= |s|
    ensures forall i :: 0 <= i < n ==> s[i] != c && s[i] != d
    ensures n < |s| ==> s[n] == c || s[n] == d
  {
    if s == "" || s[0] == c || s[0] == d then 0 else 1 + Before(s[1..], c, d)
  }

  /** The part before the exponent: digits without leading zeros, and then perhaps a point and more digits. */
  predicate ValidMantissa(m: string) {
    var p := Before(m, '.', '.');
    && Digits(m[..p]) && (m[0] == '0' ==> p == 1)
    && (p < |m| ==> Digits(m[p + 1..]))
  }

  predicate ValidExponent(x: string) {
    Digits(if x != "" && (x[0] == '+' || x[0] == '-') then x[1..] else x)
  }

  predicate ValidUnsigned(t: string) {
    var e := Before(t, 'e', 'E');
    ValidMantissa(t[..e]) && (e < |t| ==> ValidExponent(t[e + 1..]))
  }

  predicate ValidNumber(s: string) {
    && (forall i :: 0 <= i < |s| ==> IsNumberChar(s[i]))
    && ValidUnsigned(if s != "" && s[0] == '-' then s[1..] else s)
  }

  function NumberPrefix(s: string): (n: nat)
    ensures n <= |s|
  {
    if s == "" || !IsNumberChar(s[0]) then 0 else 1 + NumberPrefix(s[1..])
  }

  // ---------- Printing ----------

  function HexDigit(n: nat): char
    requires n < 16
  {
    "0123456789abcdef"[n]
  }

  function UnicodeEscape(n: nat): string
    requires n < 0x1_0000
  {
    ['\\', 'u', HexDigit(n / 4096), HexDigit(n / 256 % 16), HexDigit(n / 16 % 16), HexDigit(n % 16)]
  }

  /** One character of a string literal, with HTML escaping on, as json.Marshal has it. */
  function EscapeChar(c: char): string {
    if c == '"' || c == '\\' then ['\\', c]
    else if c == '\U{8}' then "\\b"
    else if c == '\U{C}' then "\\f"
    else if c == '\n' then "\\n"
    else if c == '\r' then "\\r"
    else if c == '\t' then "\\t"
    else if c < ' ' || c in {'<', '>', '&', '\U{2028}', '\U{2029}'} then UnicodeEscape(c as nat)
    else [c]
  }

  // Each printing function puts its text in front of what is to follow.

  function Escape(s: string, rest: string): string {
    if s == "" then rest else EscapeChar(s[0]) + Escape(s[1..], rest)
  }

  function Quote(s: string, rest: string): string {
    "\"" + Escape(s, "\"" + rest)
  }

  function PrintOn(j: Json, rest: string): string
    decreases j
  {
    match j
    case Null => "null" + rest
    case Bool(b) => (if b then "true" else "false") + rest
    case Number(lit) => lit + rest
    case Str(s) => Quote(s, rest)
    case Array(es) => "[" + if es == [] then "]" + rest else PrintElems(es, rest)
    case Object(ms) => "{" + if ms == [] then "}" + rest else PrintMembers(ms, rest)
    case Foreign => rest
  }

  function PrintElems(es: seq<Json>, rest: string): string
    requires es != []
    decreases es
  {
    PrintOn(es[0], if |es| == 1 then "]" + rest else "," + PrintElems(es[1..], rest))
  }

  function PrintMembers(ms: seq<Member>, rest: string): string
    requires ms != []
    decreases ms
  {
    Quote(ms[0].key, ":" + PrintOn(ms[0].value, if |ms| == 1 then "}" + rest else "," + PrintMembers(ms[1..], rest)))
  }

  function Print(j: Json): string {
    PrintOn(j, "")
  }

  /** The values json.Marshal accepts. */
  predicate Printable(j: Json) {
    match j
    case Number(lit) => ValidNumber(lit)
    case Array(es) => forall i :: 0 <= i < |es| ==> Printable(es[i])
    case Object(ms) => forall i :: 0 <= i < |ms| ==> Printable(ms[i].value)
    case Foreign => false
    case _ => true
  }

  // ---------- Parsing ----------

  datatype Parsed<+T> = Fail | Got(value: T, rest: string)

  predicate IsSpace(c: char) {
    c == ' ' || c == '\t' || c == '\r' || c == '\n'
  }

  function SkipSpace(s: string): (r: string)
    ensures |r| <= |s|
    ensures r != "" ==> !IsSpace(r[0])
  {
    if s != "" && IsSpace(s[0]) then SkipSpace(s[1..]) else s
  }

  function HexValue(c: char): Option<nat> {
    if IsDigit(c) then Some(c as nat - '0' as nat)
    else if 'a' <= c <= 'f' then Some(c as nat - 'a' as nat + 10)
    else if 'A' <= c <= 'F' then Some(c as nat - 'A' as nat + 10)
    else None
  }

  /** The code unit of the escape \uXXXX at the front of s. */
  function CodeUnit(s: string): (r: Option<nat>)
    ensures r.Some? ==> |s| >= 6 && r.value < 0x1_0000
  {
    if |s| < 6 || s[0] != '\\' || s[1] != 'u' then None
    else
      match (HexValue(s[2]), HexValue(s[3]), HexValue(s[4]), HexValue(s[5]))
      case (Some(a), Some(b), Some(c), Some(d)) =>
        if a < 16 && b < 16 && c < 16 && d < 16 then Some(a * 4096 + b * 256 + c * 16 + d) else None
      case _ => None
  }

  /** One escape sequence at the front of s. A surrogate pair is one character; a lone surrogate is U+FFFD. */
  function ParseEscape(s: string): (r: Parsed<char>)
    requires s != "" && s[0] == '\\'
    ensures r.Got? ==> |r.rest| < |s|
  {
    if |s| < 2 then Fail
    else
      match s[1]
      case '"' => Got('"', s[2..])
      case '\\' => Got('\\', s[2..])
      case '/' => Got('/', s[2..])
      case 'b' => Got('\U{8}', s[2..])
      case 'f' => Got('\U{C}', s[2..])
      case 'n' => Got('\n', s[2..])
      case 'r' => Got('\r', s[2..])
      case 't' => Got('\t', s[2..])
      case 'u' =>
        (match CodeUnit(s)
         case None => Fail
         case Some(n) =>
           if n < 0xD800 || 0xE000 <= n then Got(n as char, s[6..])
           else
             var low := CodeUnit(s[6..]);
             if n < 0xDC00 && low.Some? && 0xDC00 <= low.value < 0xE000 then
               Got((0x1_0000 + (n - 0xD800) * 0x400 + (low.value - 0xDC00)) as char, s[12..])
             else Got('\U{FFFD}', s[6..]))
      case _ => Fail
  }

  /** The rest of a string literal, from just after its opening quote. */
  function ParseChars(s: string): (r: Parsed<string>)
    ensures r.Got? ==> |r.rest| < |s|
    decreases |s|
  {
    if s == "" || s[0] < ' ' then Fail
    else if s[0] == '"' then Got("", s[1..])
    else
      var head := if s[0] == '\\' then ParseEscape(s) else Got(s[0], s[1..]);
      if head.Fail? then Fail
      else
        match ParseChars(head.rest)
        case Fail => Fail
        case Got(tail, rest) => Got([head.value] + tail, rest)
  }

  function ParseWord(s: string, word: string, j: Json): (r: Parsed<Json>)
    requires word != ""
    ensures r.Got? ==> |r.rest| < |s|
  {
    if |word| <= |s| && s[..|word|] == word then Got(j, s[|word|..]) else Fail
  }

  function ParseNumber(s: string): (r: Parsed<Json>)
    ensures r.Got? ==> |r.rest| < |s|
  {
    var n := NumberPrefix(s);
    if n > 0 && ValidNumber(s[..n]) then Got(Number(s[..n]), s[n..]) else Fail
  }

  function ParseValue(text: string): (r: Parsed<Json>)
    ensures r.Got? ==> |r.rest| < |text|
    decreases |text|, 0
  {
    var s := SkipSpace(text);
    if s == "" then Fail
    else
      match s[0]
      case '{' =>
        var t := SkipSpace(s[1..]);
        if t != "" && t[0] == '}' then Got(Object([]), t[1..])
        else
          (match ParseMembers(s[1..])
           case Fail => Fail
           case Got(ms, rest) => Got(Object(ms), rest))
      case '[' =>
        var t := SkipSpace(s[1..]);
        if t != "" && t[0] == ']' then Got(Array([]), t[1..])
        else
          (match ParseElems(s[1..])
           case Fail => Fail
           case Got(es, rest) => Got(Array(es), rest))
      case '"' =>
        (match ParseChars(s[1..])
         case Fail => Fail
         case Got(v, rest) => Got(Str(v), rest))
      case 'n' => ParseWord(s, "null", Null)
      case 't' => ParseWord(s, "true", Bool(true))
      case 'f' => ParseWord(s, "false", Bool(false))
      case _ => ParseNumber(s)
  }

  function ParseElems(text: string): (r: Parsed<seq<Json>>)
    ensures r.Got? ==> |r.rest| < |text|
    decreases |text|, 1
  {
    match ParseValue(text)
    case Fail => Fail
    case Got(e, after) =>
      var s := SkipSpace(after);
      if s == "" then Fail
      else if s[0] == ']' then Got([e], s[1..])
      else if s[0] != ',' then Fail
      else
        match ParseElems(s[1..])
        case Fail => Fail
        case Got(es, rest) => Got([e] + es, rest)
  }

  function ParseMembers(text: string): (r: Parsed<seq<Member>>)
    ensures r.Got? ==> |r.rest| < |text|
    decreases |text|, 1
  {
    var k := SkipSpace(text);
    if k == "" || k[0] != '"' then Fail
    else
      match ParseChars(k[1..])
      case Fail => Fail
      case Got(key, afterKey) =>
        var c := SkipSpace(afterKey);
        if c == "" || c[0] != ':' then Fail
        else
          match ParseValue(c[1..])
          case Fail => Fail
          case Got(v, afterValue) =>
            var s := SkipSpace(afterValue);
            if s == "" then Fail
            else if s[0] == '}' then Got([Member(key, v)], s[1..])
            else if s[0] != ',' then Fail
            else
              match ParseMembers(s[1..])
              case Fail => Fail
              case Got(ms, rest) => Got([Member(key, v)] + ms, rest)
  }

  /** A whole document: one value, then nothing but white space. */
  function Parse(text: string): Option<Json> {
    match ParseValue(text)
    case Fail => None
    case Got(j, rest) => if SkipSpace(rest) == "" then Some(j) else None
  }

  // ---------- Parsing what was printed ----------

  lemma HexBack(n: nat)
    requires n < 16
    ensures HexValue(HexDigit(n)) == Some(n)
  {
  }

  lemma FourDigits(n: nat)
    requires n < 0x1_0000
    ensures n / 4096 < 16
    ensures n / 4096 * 4096 + n / 256 % 16 * 256 + n / 16 % 16 * 16 + n % 16 == n
  {
    var a, b, c := n / 16, n / 256, n / 4096;
    assert n == 16 * a + n % 16;
    assert a == 16 * b + a % 16;
    assert b == 16 * c + b % 16;
  }

  lemma CodeUnitBack(n: nat, rest: string)
    requires n < 0x1_0000
    ensures CodeUnit(UnicodeEscape(n) + rest) == Some(n)
    ensures (UnicodeEscape(n) + rest)[6..] == rest
  {
    HexBack(n / 4096);
    HexBack(n / 256 % 16);
    HexBack(n / 16 % 16);
    HexBack(n % 16);
    FourDigits(n);
  }

  lemma UnitParsed(s: string, n: nat)
    requires CodeUnit(s) == Some(n) && n < 0xD800
    ensures ParseEscape(s) == Got(n as char, s[6..])
  {
  }

  lemma EscapedAreLow(c: char)
    requires |EscapeChar(c)| == 6
    ensures c as nat < 0xD800 && EscapeChar(c) == UnicodeEscape(c as nat)
  {
  }

  lemma UnicodeBack(c: char, tail: string)
    requires |EscapeChar(c)| == 6
    ensures ParseEscape(EscapeChar(c) + tail) == Got(c, tail)
  {
    EscapedAreLow(c);
    CodeUnitBack(c as nat, tail);
    UnitParsed(UnicodeEscape(c as nat) + tail, c as nat);
  }

  lemma ShortBack(c: char, tail: string)
    requires |EscapeChar(c)| == 2
    ensures ParseEscape(EscapeChar(c) + tail) == Got(c, tail)
  {
    assert (EscapeChar(c) + tail)[2..] == tail;
  }

  lemma EscapeBack(c: char, tail: string)
    ensures var s := EscapeChar(c) + tail;
            && s[0] >= ' ' && s[0] != '"'
            && (if s[0] == '\\' then ParseEscape(s) else Got(s[0], s[1..])) == Got(c, tail)
  {
    var e := EscapeChar(c);
    assert (e + tail)[0] == e[0];
    if |e| == 6 {
      UnicodeBack(c, tail);
    } else if |e| == 2 {
      ShortBack(c, tail);
    } else {
      assert (e + tail)[1..] == tail;
    }
  }

  lemma CharsStep(s: string, c: char, tail: string)
    requires s != "" && s[0] >= ' ' && s[0] != '"'
    requires (if s[0] == '\\' then ParseEscape(s) else Got(s[0], s[1..])) == Got(c, tail)
    requires ParseChars(tail).Got?
    ensures ParseChars(s) == Got([c] + ParseChars(tail).value, ParseChars(tail).rest)
  {
  }

  lemma {:induction false} CharsBack(s: string, rest: string)
    ensures ParseChars(Escape(s, "\"" + rest)) == Got(s, rest)
  {
    if s == "" {
      assert ("\"" + rest)[1..] == rest;
    } else {
      var tail := Escape(s[1..], "\"" + rest);
      CharsBack(s[1..], rest);
      EscapeBack(s[0], tail);
      CharsStep(EscapeChar(s[0]) + tail, s[0], tail);
      assert s == [s[0]] + s[1..];
    }
  }

  /** No more of a number can follow here. */
  predicate Ends(rest: string) {
    rest == "" || !IsNumberChar(rest[0])
  }

  lemma {:induction false} NumberPrefixBack(lit: string, rest: string)
    requires forall i :: 0 <= i < |lit| ==> IsNumberChar(lit[i])
    requires Ends(rest)
    ensures NumberPrefix(lit + rest) == |lit|
  {
    if lit == "" {
      assert lit + rest == rest;
    } else {
      assert (lit + rest)[1..] == lit[1..] + rest;
      NumberPrefixBack(lit[1..], rest);
    }
  }

  lemma PrintStarts(j: Json, rest: string)
    requires Printable(j)
    ensures var s := PrintOn(j, rest); s != "" && !IsSpace(s[0]) && s[0] != ']'
  {
  }

  // One parsing step at a time, on texts whose first character is known.

  lemma WordStep(j: Json, rest: string)
    requires j.Null? || j.Bool?
    ensures ParseValue(PrintOn(j, rest)) == Got(j, rest)
  {
    var w := if j.Null? then "null" else if j.b then "true" else "false";
    var s := w + rest;
    assert s[..|w|] == w && s[|w|..] == rest && s[0] == w[0];
  }

  lemma NumberCharsAreOther(c: char)
    requires IsNumberChar(c)
    ensures !IsSpace(c) && c != '{' && c != '[' && c != '"' && c != 'n' && c != 't' && c != 'f'
  {
  }

  lemma OtherStep(s: string)
    requires s != "" && !IsSpace(s[0])
    requires s[0] != '{' && s[0] != '[' && s[0] != '"' && s[0] != 'n' && s[0] != 't' && s[0] != 'f'
    ensures ParseValue(s) == ParseNumber(s)
  {
  }

  lemma NumberStep(lit: string, rest: string)
    requires ValidNumber(lit) && Ends(rest)
    ensures ParseValue(lit + rest) == Got(Number(lit), rest)
  {
    var s := lit + rest;
    NumberPrefixBack(lit, rest);
    assert s[..|lit|] == lit && s[|lit|..] == rest;
    assert lit != "" && s[0] == lit[0];
    NumberCharsAreOther(s[0]);
    OtherStep(s);
  }

  lemma QuoteStep(t: string)
    requires ParseChars(t).Got?
    ensures ParseValue("\"" + t) == Got(Str(ParseChars(t).value), ParseChars(t).rest)
  {
    assert ("\"" + t)[1..] == t;
  }

  lemma EmptyStep(rest: string)
    ensures ParseValue("[" + ("]" + rest)) == Got(Array([]), rest)
    ensures ParseValue("{" + ("}" + rest)) == Got(Object([]), rest)
  {
    assert ("[" + ("]" + rest))[1..] == "]" + rest && ("{" + ("}" + rest))[1..] == "}" + rest;
    assert ("]" + rest)[1..] == rest && ("}" + rest)[1..] == rest;
  }

  lemma ArrayStep(t: string)
    requires t != "" && !IsSpace(t[0]) && t[0] != ']'
    requires ParseElems(t).Got?
    ensures ParseValue("[" + t) == Got(Array(ParseElems(t).value), ParseElems(t).rest)
  {
    assert ("[" + t)[1..] == t;
  }

  lemma ObjectStep(t: string)
    requires t != "" && t[0] == '"'
    requires ParseMembers(t).Got?
    ensures ParseValue("{" + t) == Got(Object(ParseMembers(t).value), ParseMembers(t).rest)
  {
    assert ("{" + t)[1..] == t;
  }

  lemma LastElem(text: string, e: Json, t: string)
    requires ParseValue(text) == Got(e, "]" + t)
    ensures ParseElems(text) == Got([e], t)
  {
    assert ("]" + t)[1..] == t;
  }

  lemma FirstElem(text: string, e: Json, t: string, es: seq<Json>, rest: string)
    requires ParseValue(text) == Got(e, "," + t) && ParseElems(t) == Got(es, rest)
    ensures ParseElems(text) == Got([e] + es, rest)
  {
    assert ("," + t)[1..] == t;
  }

  lemma LastMember(chars: string, key: string, value: string, v: Json, t: string)
    requires ParseChars(chars) == Got(key, ":" + value) && ParseValue(value) == Got(v, "}" + t)
    ensures ParseMembers("\"" + chars) == Got([Member(key, v)], t)
  {
    assert ("\"" + chars)[1..] == chars && (":" + value)[1..] == value && ("}" + t)[1..] == t;
  }

  lemma FirstMember(chars: string, key: string, value: string, v: Json, t: string, ms: seq<Member>, rest: string)
    requires ParseChars(chars) == Got(key, ":" + value) && ParseValue(value) == Got(v, "," + t)
    requires ParseMembers(t) == Got(ms, rest)
    ensures ParseMembers("\"" + chars) == Got([Member(key, v)] + ms, rest)
  {
    assert ("\"" + chars)[1..] == chars && (":" + value)[1..] == value && ("," + t)[1..] == t;
  }

  // The induction over the value.

  lemma {:induction false} ValueBack(j: Json, rest: string)
    requires Printable(j) && Ends(rest)
    ensures ParseValue(PrintOn(j, rest)) == Got(j, rest)
    decreases j, 1
  {
    match j {
      case Str(v) =>
        CharsBack(v, rest);
        QuoteStep(Escape(v, "\"" + rest));
      case Number(lit) => NumberStep(lit, rest);
      case Array(es) => ArrayBack(es, rest);
      case Object(ms) => ObjectBack(ms, rest);
      case _ => WordStep(j, rest);
    }
  }

  lemma {:induction false} ArrayBack(es: seq<Json>, rest: string)
    requires forall i :: 0 <= i < |es| ==> Printable(es[i])
    ensures ParseValue(PrintOn(Array(es), rest)) == Got(Array(es), rest)
    decreases es, 1
  {
    if es == [] {
      EmptyStep(rest);
    } else {
      ElemsBack(es, rest);
      PrintStarts(es[0], if |es| == 1 then "]" + rest else "," + PrintElems(es[1..], rest));
      ArrayStep(PrintElems(es, rest));
    }
  }

  lemma {:induction false} ObjectBack(ms: seq<Member>, rest: string)
    requires forall i :: 0 <= i < |ms| ==> Printable(ms[i].value)
    ensures ParseValue(PrintOn(Object(ms), rest)) == Got(Object(ms), rest)
    decreases ms, 2
  {
    if ms == [] {
      EmptyStep(rest);
    } else {
      MembersBack(ms, rest);
      ObjectStep(PrintMembers(ms, rest));
    }
  }

  lemma FirstElemBack(es: seq<Json>, rest: string, t: string)
    requires |es| > 1 && t == PrintElems(es[1..], rest) && ParseElems(t) == Got(es[1..], rest)
    requires ParseValue(PrintOn(es[0], "," + t)) == Got(es[0], "," + t)
    ensures ParseElems(PrintElems(es, rest)) == Got(es, rest)
  {
    FirstElem(PrintOn(es[0], "," + t), es[0], t, es[1..], rest);
    assert es == [es[0]] + es[1..];
  }

  lemma {:induction false} ElemsBack(es: seq<Json>, rest: string)
    requires es != [] && forall i :: 0 <= i < |es| ==> Printable(es[i])
    ensures ParseElems(PrintElems(es, rest)) == Got(es, rest)
    decreases es, 0
  {
    if |es| == 1 {
      ValueBack(es[0], "]" + rest);
      LastElem(PrintElems(es, rest), es[0], rest);
      assert es == [es[0]];
    } else {
      var t := PrintElems(es[1..], rest);
      ElemsBack(es[1..], rest);
      ValueBack(es[0], "," + t);
      FirstElemBack(es, rest, t);
    }
  }

  /** The first member of what is printed: its key up to the colon, its value, and what is printed after it. */
  lemma {:induction false} MemberBack(ms: seq<Member>, rest: string, after: string)
    returns (chars: string, value: string)
    requires ms != [] && Printable(ms[0].value) && Ends(after)
    requires after == if |ms| == 1 then "}" + rest else "," + PrintMembers(ms[1..], rest)
    ensures PrintMembers(ms, rest) == "\"" + chars
    ensures ParseChars(chars) == Got(ms[0].key, ":" + value) && ParseValue(value) == Got(ms[0].value, after)
    decreases ms, 0
  {
    value := PrintOn(ms[0].value, after);
    chars := Escape(ms[0].key, "\"" + (":" + value));
    ValueBack(ms[0].value, after);
    CharsBack(ms[0].key, ":" + value);
  }

  lemma {:induction false} MembersBack(ms: seq<Member>, rest: string)
    requires ms != [] && forall i :: 0 <= i < |ms| ==> Printable(ms[i].value)
    ensures ParseMembers(PrintMembers(ms, rest)) == Got(ms, rest)
    decreases ms, 1
  {
    if |ms| == 1 {
      var chars, value := MemberBack(ms, rest, "}" + rest);
      LastMember(chars, ms[0].key, value, ms[0].value, rest);
      assert ms == [ms[0]];
    } else {
      MembersBack(ms[1..], rest);
      var t := PrintMembers(ms[1..], rest);
      var chars, value := MemberBack(ms, rest, "," + t);
      FirstMemberBack(ms, chars, value, t, rest);
    }
  }

  lemma FirstMemberBack(ms: seq<Member>, chars: string, value: string, t: string, rest: string)
    requires |ms| > 1 && ParseChars(chars) == Got(ms[0].key, ":" + value)
    requires ParseValue(value) == Got(ms[0].value, "," + t) && ParseMembers(t) == Got(ms[1..], rest)
    ensures ParseMembers("\"" + chars) == Got(ms, rest)
  {
    FirstMember(chars, ms[0].key, value, ms[0].value, t, ms[1..], rest);
    assert ms == [ms[0]] + ms[1..];
  }

  /** Parsing undoes printing, for every value that can be printed. */
  lemma ParsePrint(j: Json)
    requires Printable(j)
    ensures Parse(Print(j)) == Some(j)
  {
    ValueBack(j, "");
  }

  // ---------- Printing in front of a text, and what is printed ----------

  lemma {:induction false} EscapeFront(s: string, rest: string, more: string)
    ensures Escape(s, rest + more) == Escape(s, rest) + more
  {
    if s != "" {
      EscapeFront(s[1..], rest, more);
      assert EscapeChar(s[0]) + (Escape(s[1..], rest) + more) == (EscapeChar(s[0]) + Escape(s[1..], rest)) + more;
    }
  }

  lemma QuoteFront(s: string, rest: string, more: string)
    ensures Quote(s, rest + more) == Quote(s, rest) + more
  {
    EscapeFront(s, "\"" + rest, more);
    assert "\"" + (rest + more) == ("\"" + rest) + more;
  }

  lemma RegroupText(a: string, b: string, c: string)
    ensures a + (b + c) == (a + b) + c
  {
  }

  lemma {:induction false} PrintFront(j: Json, rest: string, more: string)
    ensures PrintOn(j, rest + more) == PrintOn(j, rest) + more
    decreases j, 0
  {
    match j {
      case Null => RegroupText("null", rest, more);
      case Bool(b) => RegroupText(if b then "true" else "false", rest, more);
      case Number(lit) => RegroupText(lit, rest, more);
      case Str(s) => QuoteFront(s, rest, more);
      case Array(es) => ArrayFront(es, rest, more);
      case Object(ms) => ObjectFront(ms, rest, more);
      case Foreign =>
    }
  }

  lemma {:induction false} ArrayFront(es: seq<Json>, rest: string, more: string)
    ensures PrintOn(Array(es), rest + more) == PrintOn(Array(es), rest) + more
    decreases es, 1
  {
    if es == [] {
      RegroupText("]", rest, more);
      RegroupText("[", "]" + rest, more);
    } else {
      ElemsFront(es, rest, more);
      RegroupText("[", PrintElems(es, rest), more);
    }
  }

  lemma {:induction false} ObjectFront(ms: seq<Member>, rest: string, more: string)
    ensures PrintOn(Object(ms), rest + more) == PrintOn(Object(ms), rest) + more
    decreases ms, 1
  {
    if ms == [] {
      RegroupText("}", rest, more);
      RegroupText("{", "}" + rest, more);
    } else {
      MembersFront(ms, rest, more);
      RegroupText("{", PrintMembers(ms, rest), more);
    }
  }

  lemma {:induction false} ElemsFront(es: seq<Json>, rest: string, more: string)
    requires es != []
    ensures PrintElems(es, rest + more) == PrintElems(es, rest) + more
    decreases es, 0
  {
    if |es| == 1 {
      PrintFront(es[0], "]" + rest, more);
      assert "]" + (rest + more) == ("]" + rest) + more;
    } else {
      var t := PrintElems(es[1..], rest);
      ElemsFront(es[1..], rest, more);
      PrintFront(es[0], "," + t, more);
      assert "," + (t + more) == ("," + t) + more;
    }
  }

  lemma {:induction false} MembersFront(ms: seq<Member>, rest: string, more: string)
    requires ms != []
    ensures PrintMembers(ms, rest + more) == PrintMembers(ms, rest) + more
    decreases ms, 0
  {
    var v := ms[0].value;
    if |ms| == 1 {
      PrintFront(v, "}" + rest, more);
      assert "}" + (rest + more) == ("}" + rest) + more;
      QuoteFront(ms[0].key, ":" + PrintOn(v, "}" + rest), more);
      assert ":" + (PrintOn(v, "}" + rest) + more) == (":" + PrintOn(v, "}" + rest)) + more;
    } else {
      var t := PrintMembers(ms[1..], rest);
      MembersFront(ms[1..], rest, more);
      PrintFront(v, "," + t, more);
      assert "," + (t + more) == ("," + t) + more;
      QuoteFront(ms[0].key, ":" + PrintOn(v, "," + t), more);
      assert ":" + (PrintOn(v, "," + t) + more) == (":" + PrintOn(v, "," + t)) + more;
    }
  }

  lemma PrintBefore(j: Json, more: string)
    ensures PrintOn(j, more) == Print(j) + more
  {
    PrintFront(j, "", more);
    assert "" + more == more;
  }

  /** What json.Marshal writes can stand in a script: no control characters, no line separators, and none of
      the characters HTML gives a meaning. */
  predicate Safe(s: string) {
    forall i :: 0 <= i < |s| ==> s[i] >= ' ' && s[i] !in {'<', '>', '&', '\U{2028}', '\U{2029}'}
  }

  lemma HexIsSafe(n: nat)
    requires n < 16
    ensures HexDigit(n) >= '0' && HexDigit(n) !in {'<', '>', '&', '\U{2028}', '\U{2029}'}
  {
  }

  /** Which characters are written with a short escape, which by their code, and that codes have small letters. With
      ParsePrint this leaves one spelling for each. */
  lemma EscapesBriefly(c: char)
    ensures |EscapeChar(c)| ==
            if c in {'"', '\\', '\U{8}', '\U{C}', '\n', '\r', '\t'} then 2
            else if c < ' ' || c in {'<', '>', '&', '\U{2028}', '\U{2029}'} then 6
            else 1
    ensures |EscapeChar(c)| == 6 ==>
              forall i :: 2 <= i < 6 ==> '0' <= EscapeChar(c)[i] <= '9' || 'a' <= EscapeChar(c)[i] <= 'f'
  {
    if |EscapeChar(c)| == 6 {
      var n := c as nat;
      HexIsSmall(n / 4096);
      HexIsSmall(n / 256 % 16);
      HexIsSmall(n / 16 % 16);
      HexIsSmall(n % 16);
    }
  }

  lemma HexIsSmall(n: nat)
    requires n < 16
    ensures '0' <= HexDigit(n) <= '9' || 'a' <= HexDigit(n) <= 'f'
  {
  }

  lemma EscapeCharIsSafe(c: char)
    ensures Safe(EscapeChar(c))
  {
    if |EscapeChar(c)| == 6 {
      var n := c as nat;
      HexIsSafe(n / 4096);
      HexIsSafe(n / 256 % 16);
      HexIsSafe(n / 16 % 16);
      HexIsSafe(n % 16);
    }
  }

  lemma {:induction false} EscapeIsSafe(s: string, rest: string)
    requires Safe(rest)
    ensures Safe(Escape(s, rest))
  {
    if s != "" {
      EscapeCharIsSafe(s[0]);
      EscapeIsSafe(s[1..], rest);
    }
  }

  lemma JoinIsSafe(a: string, b: string)
    requires Safe(a) && Safe(b)
    ensures Safe(a + b)
  {
  }

  lemma QuoteIsSafe(s: string, rest: string)
    requires Safe(rest)
    ensures Safe(Quote(s, rest))
  {
    JoinIsSafe("\"", rest);
    EscapeIsSafe(s, "\"" + rest);
    JoinIsSafe("\"", Escape(s, "\"" + rest));
  }

  lemma NumberIsSafe(lit: string)
    requires ValidNumber(lit)
    ensures Safe(lit)
  {
    forall i | 0 <= i < |lit| ensures lit[i] >= ' ' && lit[i] !in {'<', '>', '&', '\U{2028}', '\U{2029}'} {
      assert IsNumberChar(lit[i]);
    }
  }

  lemma {:induction false} PrintIsSafe(j: Json, rest: string)
    requires Printable(j) && Safe(rest)
    ensures Safe(PrintOn(j, rest))
    decreases j, 0
  {
    match j {
      case Null => JoinIsSafe("null", rest);
      case Bool(b) => JoinIsSafe(if b then "true" else "false", rest);
      case Number(lit) => NumberIsSafe(lit); JoinIsSafe(lit, rest);
      case Str(s) => QuoteIsSafe(s, rest);
      case Array(es) => ArrayIsSafe(es, rest);
      case Object(ms) => ObjectIsSafe(ms, rest);
    }
  }

  lemma {:induction false} ArrayIsSafe(es: seq<Json>, rest: string)
    requires (forall i :: 0 <= i < |es| ==> Printable(es[i])) && Safe(rest)
    ensures Safe(PrintOn(Array(es), rest))
    decreases es, 1
  {
    if es == [] {
      JoinIsSafe("]", rest);
      JoinIsSafe("[", "]" + rest);
    } else {
      ElemsAreSafe(es, rest);
      JoinIsSafe("[", PrintElems(es, rest));
    }
  }

  lemma {:induction false} ObjectIsSafe(ms: seq<Member>, rest: string)
    requires (forall i :: 0 <= i < |ms| ==> Printable(ms[i].value)) && Safe(rest)
    ensures Safe(PrintOn(Object(ms), rest))
    decreases ms, 2
  {
    if ms == [] {
      JoinIsSafe("}", rest);
      JoinIsSafe("{", "}" + rest);
    } else {
      MembersAreSafe(ms, rest);
      JoinIsSafe("{", PrintMembers(ms, rest));
    }
  }

  lemma {:induction false} ElemsAreSafe(es: seq<Json>, rest: string)
    requires es != [] && (forall i :: 0 <= i < |es| ==> Printable(es[i])) && Safe(rest)
    ensures Safe(PrintElems(es, rest))
    decreases es, 0
  {
    if |es| == 1 {
      JoinIsSafe("]", rest);
      PrintIsSafe(es[0], "]" + rest);
    } else {
      ElemsAreSafe(es[1..], rest);
      JoinIsSafe(",", PrintElems(es[1..], rest));
      PrintIsSafe(es[0], "," + PrintElems(es[1..], rest));
    }
  }

  lemma {:induction false} MembersAreSafe(ms: seq<Member>, rest: string)
    requires ms != [] && (forall i :: 0 <= i < |ms| ==> Printable(ms[i].value)) && Safe(rest)
    ensures Safe(PrintMembers(ms, rest))
    decreases ms, 1
  {
    if |ms| == 1 {
      JoinIsSafe("}", rest);
      MemberIsSafe(ms, "}" + rest);
    } else {
      MembersAreSafe(ms[1..], rest);
      JoinIsSafe(",", PrintMembers(ms[1..], rest));
      MemberIsSafe(ms, "," + PrintMembers(ms[1..], rest));
    }
  }

  lemma {:induction false} MemberIsSafe(ms: seq<Member>, after: string)
    requires ms != [] && Printable(ms[0].value) && Safe(after)
    ensures Safe(Quote(ms[0].key, ":" + PrintOn(ms[0].value, after)))
    decreases ms, 0
  {
    PrintIsSafe(ms[0].value, after);
    JoinIsSafe(":", PrintOn(ms[0].value, after));
    QuoteIsSafe(ms[0].key, ":" + PrintOn(ms[0].value, after));
  }
}
