/**
 How far the parser looks: what it makes of a text depends on the part it
 consumes alone, so no strict prefix of an encoded object parses, cut between
 characters or within one.
 */
module JsonPrefix {
  import opened Outcomes
  import opened Utf8
  import opened JsonText

  // Each of these lemmas gives the part that was consumed, and what follows it may be anything.

  lemma {:induction false} SpaceLocal(text: string, after: string) returns (c: string)
    requires after != "" && !IsSpace(after[0])
    ensures text == c + SkipSpace(text) && SkipSpace(c + after) == after
    ensures c != "" ==> IsSpace(c[0])
  {
    if text != "" && IsSpace(text[0]) {
      var d := SpaceLocal(text[1..], after);
      c := [text[0]] + d;
      assert c + after == [text[0]] + (d + after);
      assert (c + after)[1..] == d + after;
    } else {
      c := "";
      assert c + after == after;
    }
  }

  lemma Regroup(a: string, b: string, c: string)
    ensures (a + b) + c == a + (b + c)
  {
  }

  // ---------- Strings ----------

  predicate EndsIn(c: string, last: char) {
    c != "" && c[|c| - 1] == last
  }

  /** A quote among the first six characters makes them no escape. */
  lemma UnitLocal(c: string, rest: string, after: string)
    requires EndsIn(c, '"')
    ensures CodeUnit(c + rest) == CodeUnit(c + after)
  {
    if |c| >= 6 {
      assert (c + rest)[..6] == c[..6] == (c + after)[..6];
      UnitFront(c + rest, c + after);
    } else {
      QuoteInUnit(c + rest, |c| - 1);
      QuoteInUnit(c + after, |c| - 1);
    }
  }

  lemma UnitFront(s: string, t: string)
    requires |s| >= 6 && |t| >= 6 && s[..6] == t[..6]
    ensures CodeUnit(s) == CodeUnit(t)
  {
    assert forall i :: 0 <= i < 6 ==> s[i] == s[..6][i] && t[i] == t[..6][i];
  }

  lemma QuoteInUnit(s: string, i: nat)
    requires i < 6 && i < |s| && s[i] == '"'
    ensures CodeUnit(s) == None
  {
    assert HexValue('"') == None;
  }

  lemma EscapeLocal(s: string, c: string, rest: string, after: string) returns (front: string)
    requires s != "" && s[0] == '\\' && EndsIn(c, '"')
    requires ParseEscape(s).Got? && ParseEscape(s).rest == c + rest
    ensures front != "" && front[0] == '\\' && s == front + (c + rest)
    ensures ParseEscape(front + (c + after)) == Got(ParseEscape(s).value, c + after)
  {
    var t := c + rest;
    front := s[..|s| - |t|];
    var s' := front + (c + after);
    if s[1] == 'u' {
      UnitFront(s, s');
      UnitLocal(c, rest, after);
      if |front| == 12 {
        assert s'[6..][..6] == s[6..][..6];
        UnitFront(s[6..], s'[6..]);
        assert s'[12..] == c + after;
      } else {
        assert s'[6..] == c + after;
      }
    } else {
      assert s'[2..] == c + after;
    }
  }

  lemma CharsMore(s: string, head: char, tail: string, v: string, rest: string)
    requires s != "" && s[0] >= ' ' && s[0] != '"'
    requires (if s[0] == '\\' then ParseEscape(s) else Got(s[0], s[1..])) == Got(head, tail)
    requires ParseChars(tail) == Got(v, rest)
    ensures ParseChars(s) == Got([head] + v, rest)
  {
  }

  /** One plain character or escape, and then a string's end that has been seen to be local. */
  lemma CharLocal(text: string, d: string, rest: string, after: string) returns (front: string)
    requires text != "" && text[0] >= ' ' && text[0] != '"' && EndsIn(d, '"')
    requires var head := if text[0] == '\\' then ParseEscape(text) else Got(text[0], text[1..]);
             head.Got? && head.rest == d + rest
    ensures front != "" && front[0] == text[0] && text == front + (d + rest)
    ensures var x := front + (d + after);
            (if x[0] == '\\' then ParseEscape(x) else Got(x[0], x[1..])) ==
            Got(if text[0] == '\\' then ParseEscape(text).value else text[0], d + after)
  {
    if text[0] == '\\' {
      front := EscapeLocal(text, d, rest, after);
    } else {
      front := [text[0]];
      assert (front + (d + after))[1..] == d + after;
    }
  }

  lemma {:induction false} CharsLocal(text: string, after: string) returns (c: string)
    requires ParseChars(text).Got?
    ensures EndsIn(c, '"') && text == c + ParseChars(text).rest
    ensures ParseChars(c + after) == Got(ParseChars(text).value, after)
    decreases |text|
  {
    if text[0] == '"' {
      c := "\"";
      assert (c + after)[1..] == after;
    } else {
      var head := if text[0] == '\\' then ParseEscape(text) else Got(text[0], text[1..]);
      var rest := ParseChars(head.rest).rest;
      var d := CharsLocal(head.rest, after);
      var front := CharLocal(text, d, rest, after);
      c := front + d;
      Regroup(front, d, after);
      Regroup(front, d, rest);
      CharsMore(c + after, head.value, d + after, ParseChars(head.rest).value, after);
    }
  }

  // ---------- Steps of the parsers, white space included ----------

  lemma SkipsAlike(a: string, b: string)
    requires SkipSpace(a) == SkipSpace(b)
    ensures ParseValue(a) == ParseValue(b)
  {
  }

  lemma LastElemAt(text: string, e: Json, a: string, t: string)
    requires ParseValue(text) == Got(e, a) && SkipSpace(a) == "]" + t
    ensures ParseElems(text) == Got([e], t)
  {
    assert ("]" + t)[1..] == t;
  }

  lemma FirstElemAt(text: string, e: Json, a: string, t: string, es: seq<Json>, rest: string)
    requires ParseValue(text) == Got(e, a) && SkipSpace(a) == "," + t && ParseElems(t) == Got(es, rest)
    ensures ParseElems(text) == Got([e] + es, rest)
  {
    assert ("," + t)[1..] == t;
  }

  /** A key, a colon and a value at the front of text, and a after them. */
  predicate StartsMember(text: string, key: string, v: Json, a: string) {
    var k := SkipSpace(text);
    && k != "" && k[0] == '"' && ParseChars(k[1..]).Got? && ParseChars(k[1..]).value == key
    && var c := SkipSpace(ParseChars(k[1..]).rest);
       c != "" && c[0] == ':' && ParseValue(c[1..]) == Got(v, a)
  }

  lemma LastMemberAt(text: string, key: string, v: Json, a: string, t: string)
    requires StartsMember(text, key, v, a) && SkipSpace(a) == "}" + t
    ensures ParseMembers(text) == Got([Member(key, v)], t)
  {
    assert ("}" + t)[1..] == t;
  }

  lemma FirstMemberAt(text: string, key: string, v: Json, a: string, t: string, ms: seq<Member>, rest: string)
    requires StartsMember(text, key, v, a) && SkipSpace(a) == "," + t && ParseMembers(t) == Got(ms, rest)
    ensures ParseMembers(text) == Got([Member(key, v)] + ms, rest)
  {
    assert ("," + t)[1..] == t;
  }

  lemma EmptyObjectAt(s: string, t: string)
    requires s != "" && s[0] == '{' && SkipSpace(s[1..]) == "}" + t
    ensures ParseValue(s) == Got(Object([]), t)
  {
    assert ("}" + t)[1..] == t;
  }

  lemma ObjectAt(s: string, ms: seq<Member>, t: string)
    requires s != "" && s[0] == '{' && ParseMembers(s[1..]) == Got(ms, t)
    ensures ParseValue(s) == Got(Object(ms), t)
  {
    assert SkipSpace(s[1..])[0] == '"';
  }

  lemma EmptyArrayAt(s: string, t: string)
    requires s != "" && s[0] == '[' && SkipSpace(s[1..]) == "]" + t
    ensures ParseValue(s) == Got(Array([]), t)
  {
    assert ("]" + t)[1..] == t;
  }

  lemma NoValueAt(text: string)
    requires ParseValue(text).Got?
    ensures SkipSpace(text) != "" && SkipSpace(text)[0] != ']'
  {
    var s := SkipSpace(text);
    if s[0] == ']' {
      OtherStep(s);
      SkipsAlike(text, s);
    }
  }

  lemma ArrayAt(s: string, es: seq<Json>, t: string)
    requires s != "" && s[0] == '[' && ParseElems(s[1..]) == Got(es, t)
    ensures ParseValue(s) == Got(Array(es), t)
  {
    NoValueAt(s[1..]);
  }

  lemma RegroupThree(a: string, b: string, c: string, d: string)
    ensures (a + (b + c)) + d == a + (b + (c + d))
  {
  }

  lemma JoinEndsIn(a: string, b: string, last: char)
    requires EndsIn(b, last)
    ensures EndsIn(a + b, last)
  {
  }

  // ---------- Values ----------

  predicate IsMark(c: char) {
    c in {',', ':', ']', '}'}
  }

  lemma MarkEnds(space: string, mark: char, x: string)
    requires IsMark(mark) && (space != "" ==> IsSpace(space[0]))
    ensures Ends(space + ([mark] + x))
  {
    var first := (space + ([mark] + x))[0];
    assert first == if space == "" then mark else space[0];
    assert !IsNumberChar(first);
  }

  /** White space and the mark after it, before anything else. */
  lemma MarkLocal(a: string, x: string) returns (c: string)
    requires SkipSpace(a) != "" && IsMark(SkipSpace(a)[0])
    ensures var mark := SkipSpace(a)[0];
            EndsIn(c, mark) && a == c + SkipSpace(a)[1..] && SkipSpace(c + x) == [mark] + x && Ends(c + x)
  {
    var mark := SkipSpace(a)[0];
    var space := SpaceLocal(a, [mark] + x);
    c := space + [mark];
    Regroup(space, [mark], x);
    Regroup(space, [mark], SkipSpace(a)[1..]);
    assert SkipSpace(a) == [mark] + SkipSpace(a)[1..];
    MarkEnds(space, mark, x);
  }

  lemma {:induction false} ValueLocal(text: string, after: string) returns (c: string)
    requires ParseValue(text).Got? && (ParseValue(text).value.Number? ==> Ends(after))
    ensures c != "" && text == c + ParseValue(text).rest && ParseValue(c + after) == Got(ParseValue(text).value, after)
    ensures ParseValue(text).value.Object? ==> EndsIn(c, '}')
    decreases |text|, 2
  {
    var s := SkipSpace(text);
    SkipsAlike(text, s);
    var d := CoreLocal(s, after);
    var space := SpaceLocal(text, d + after);
    c := space + d;
    Regroup(space, d, after);
    Regroup(space, d, ParseValue(text).rest);
    SkipsAlike(c + after, d + after);
  }

  /** A value without white space before it. */
  lemma {:induction false} CoreLocal(s: string, after: string) returns (c: string)
    requires s != "" && !IsSpace(s[0])
    requires ParseValue(s).Got? && (ParseValue(s).value.Number? ==> Ends(after))
    ensures c != "" && c[0] == s[0] && s == c + ParseValue(s).rest
    ensures ParseValue(c + after) == Got(ParseValue(s).value, after)
    ensures ParseValue(s).value.Object? ==> EndsIn(c, '}')
    decreases |s|, 1
  {
    match s[0] {
      case '{' => c := ObjectLocal(s, after);
      case '[' => c := ArrayLocal(s, after);
      case '"' => c := QuotedLocal(s, after);
      case 'n' => c := WordLocal(s, "null", after);
      case 't' => c := WordLocal(s, "true", after);
      case 'f' => c := WordLocal(s, "false", after);
      case _ => c := NumberLocal(s, after);
    }
  }

  lemma QuotedLocal(s: string, after: string) returns (c: string)
    requires s != "" && s[0] == '"' && ParseValue(s).Got?
    ensures c != "" && c[0] == s[0] && s == c + ParseValue(s).rest
    ensures ParseValue(c + after) == Got(ParseValue(s).value, after)
    ensures !ParseValue(s).value.Object?
  {
    var d := CharsLocal(s[1..], after);
    c := "\"" + d;
    Regroup("\"", d, after);
    QuoteStep(d + after);
  }

  lemma WordLocal(s: string, word: string, after: string) returns (c: string)
    requires word in {"null", "true", "false"} && s != "" && s[0] == word[0] && ParseValue(s).Got?
    ensures c != "" && c[0] == s[0] && s == c + ParseValue(s).rest
    ensures ParseValue(c + after) == Got(ParseValue(s).value, after)
    ensures !ParseValue(s).value.Object?
  {
    c := word;
    assert (c + after)[..|word|] == word && (c + after)[|word|..] == after;
  }

  lemma NumberParts(s: string)
    requires s != "" && !IsSpace(s[0]) && s[0] !in {'{', '[', '"', 'n', 't', 'f'} && ParseValue(s).Got?
    ensures var n := NumberPrefix(s); n > 0 && ValidNumber(s[..n]) && ParseValue(s) == Got(Number(s[..n]), s[n..])
  {
    OtherStep(s);
  }

  lemma CutText(s: string, n: nat)
    requires 0 < n <= |s|
    ensures s == s[..n] + s[n..] && s[..n] != "" && s[..n][0] == s[0]
  {
  }

  lemma NumberLocal(s: string, after: string) returns (c: string)
    requires s != "" && !IsSpace(s[0]) && s[0] !in {'{', '[', '"', 'n', 't', 'f'} && ParseValue(s).Got? && Ends(after)
    ensures c != "" && c[0] == s[0] && s == c + ParseValue(s).rest
    ensures ParseValue(c + after) == Got(ParseValue(s).value, after)
    ensures !ParseValue(s).value.Object?
  {
    NumberParts(s);
    var n := NumberPrefix(s);
    c := s[..n];
    CutText(s, n);
    NumberStep(c, after);
  }

  predicate IsEmpty(s: string, close: char)
    requires s != ""
  {
    SkipSpace(s[1..]) != "" && SkipSpace(s[1..])[0] == close
  }

  lemma ObjectParts(s: string)
    requires s != "" && s[0] == '{' && ParseValue(s).Got? && !IsEmpty(s, '}')
    ensures ParseMembers(s[1..]).Got?
    ensures ParseValue(s) == Got(Object(ParseMembers(s[1..]).value), ParseMembers(s[1..]).rest)
  {
  }

  lemma ArrayParts(s: string)
    requires s != "" && s[0] == '[' && ParseValue(s).Got? && !IsEmpty(s, ']')
    ensures ParseElems(s[1..]).Got?
    ensures ParseValue(s) == Got(Array(ParseElems(s[1..]).value), ParseElems(s[1..]).rest)
  {
  }

  lemma OpenLocal(s: string, open: char, d: string, rest: string, after: string)
    requires s != "" && s[0] == open && s[1..] == d + rest
    ensures s == ([open] + d) + rest && (([open] + d) + after)[1..] == d + after
  {
  }

  lemma EmptyObjectLocal(s: string, after: string) returns (c: string)
    requires s != "" && s[0] == '{' && IsEmpty(s, '}')
    ensures EndsIn(c, '}') && c[0] == '{' && ParseValue(s) == Got(Object([]), SkipSpace(s[1..])[1..])
    ensures s == c + SkipSpace(s[1..])[1..] && ParseValue(c + after) == Got(Object([]), after)
  {
    var d := MarkLocal(s[1..], after);
    c := "{" + d;
    OpenLocal(s, '{', d, SkipSpace(s[1..])[1..], after);
    EmptyObjectAt(s, SkipSpace(s[1..])[1..]);
    EmptyObjectAt(c + after, after);
  }

  lemma EmptyArrayLocal(s: string, after: string) returns (c: string)
    requires s != "" && s[0] == '[' && IsEmpty(s, ']')
    ensures c != "" && c[0] == '[' && ParseValue(s) == Got(Array([]), SkipSpace(s[1..])[1..])
    ensures s == c + SkipSpace(s[1..])[1..] && ParseValue(c + after) == Got(Array([]), after)
  {
    var d := MarkLocal(s[1..], after);
    c := "[" + d;
    OpenLocal(s, '[', d, SkipSpace(s[1..])[1..], after);
    EmptyArrayAt(s, SkipSpace(s[1..])[1..]);
    EmptyArrayAt(c + after, after);
  }

  lemma {:induction false} ObjectLocal(s: string, after: string) returns (c: string)
    requires s != "" && s[0] == '{' && ParseValue(s).Got?
    ensures EndsIn(c, '}') && c[0] == s[0] && s == c + ParseValue(s).rest
    ensures ParseValue(c + after) == Got(ParseValue(s).value, after)
    decreases |s|, 0
  {
    if IsEmpty(s, '}') {
      c := EmptyObjectLocal(s, after);
    } else {
      ObjectParts(s);
      var d := MembersLocal(s[1..], after);
      c := "{" + d;
      OpenLocal(s, '{', d, ParseMembers(s[1..]).rest, after);
      ObjectAt(c + after, ParseMembers(s[1..]).value, after);
    }
  }

  lemma {:induction false} ArrayLocal(s: string, after: string) returns (c: string)
    requires s != "" && s[0] == '[' && ParseValue(s).Got?
    ensures c != "" && c[0] == s[0] && s == c + ParseValue(s).rest
    ensures ParseValue(c + after) == Got(ParseValue(s).value, after)
    ensures !ParseValue(s).value.Object?
    decreases |s|, 0
  {
    if IsEmpty(s, ']') {
      c := EmptyArrayLocal(s, after);
    } else {
      ArrayParts(s);
      var d := ElemsLocal(s[1..], after);
      c := "[" + d;
      OpenLocal(s, '[', d, ParseElems(s[1..]).rest, after);
      ArrayAt(c + after, ParseElems(s[1..]).value, after);
    }
  }

  lemma {:induction false} ElemsLocal(text: string, after: string) returns (c: string)
    requires ParseElems(text).Got?
    ensures c != "" && text == c + ParseElems(text).rest
    ensures ParseElems(c + after) == Got(ParseElems(text).value, after)
    decreases |text|, 3
  {
    var e, a := ParseValue(text).value, ParseValue(text).rest;
    var s := SkipSpace(a);
    if s[0] == ',' {
      var d := ElemsLocal(s[1..], after);
      var mark := MarkLocal(a, d + after);
      var v := ValueLocal(text, mark + (d + after));
      c := v + (mark + d);
      RegroupThree(v, mark, d, after);
      RegroupThree(v, mark, d, ParseElems(text).rest);
      FirstElemAt(c + after, e, mark + (d + after), d + after, ParseElems(s[1..]).value, after);
    } else {
      var mark := MarkLocal(a, after);
      var v := ValueLocal(text, mark + after);
      c := v + mark;
      Regroup(v, mark, after);
      Regroup(v, mark, ParseElems(text).rest);
      LastElemAt(c + after, e, mark + after, after);
    }
  }

  /** A key in quotes, white space before it. */
  lemma KeyLocal(text: string, x: string) returns (c: string)
    requires var k := SkipSpace(text); k != "" && k[0] == '"' && ParseChars(k[1..]).Got?
    ensures var q := ParseChars(SkipSpace(text)[1..]);
            var k' := SkipSpace(c + x);
            c != "" && text == c + q.rest && k' != "" && k'[0] == '"' && ParseChars(k'[1..]) == Got(q.value, x)
  {
    var q := SkipSpace(text)[1..];
    var d := CharsLocal(q, x);
    var space := SpaceLocal(text, "\"" + (d + x));
    c := space + ("\"" + d);
    RegroupThree(space, "\"", d, x);
    RegroupThree(space, "\"", d, ParseChars(q).rest);
    assert SkipSpace(text) == "\"" + q && ("\"" + (d + x))[1..] == d + x;
  }

  lemma {:induction false} MemberLocal(text: string, key: string, v: Json, a: string, after: string) returns (c: string)
    requires StartsMember(text, key, v, a) && (v.Number? ==> Ends(after))
    ensures c != "" && text == c + a && StartsMember(c + after, key, v, after)
    decreases |text|, 0
  {
    var b := ParseChars(SkipSpace(text)[1..]).rest;
    var value := ValueLocal(SkipSpace(b)[1..], after);
    var colon := MarkLocal(b, value + after);
    var quoted := KeyLocal(text, colon + (value + after));
    c := quoted + (colon + value);
    RegroupThree(quoted, colon, value, after);
    RegroupThree(quoted, colon, value, a);
    assert (":" + (value + after))[1..] == value + after;
  }

  lemma {:induction false} MembersLocal(text: string, after: string) returns (c: string)
    requires ParseMembers(text).Got?
    ensures EndsIn(c, '}') && text == c + ParseMembers(text).rest
    ensures ParseMembers(c + after) == Got(ParseMembers(text).value, after)
    decreases |text|, 3
  {
    var q := ParseChars(SkipSpace(text)[1..]);
    var t := SkipSpace(q.rest)[1..];
    var v, a := ParseValue(t).value, ParseValue(t).rest;
    if SkipSpace(a)[0] == ',' {
      c := FirstMemberLocal(text, q.value, v, a, after);
    } else {
      c := LastMemberLocal(text, q.value, v, a, after);
    }
  }

  lemma {:induction false} LastMemberLocal(text: string, key: string, v: Json, a: string, after: string)
    returns (c: string)
    requires StartsMember(text, key, v, a) && SkipSpace(a) != "" && SkipSpace(a)[0] == '}'
    ensures EndsIn(c, '}') && text == c + SkipSpace(a)[1..] && ParseMembers(c + after) == Got([Member(key, v)], after)
    decreases |text|, 1
  {
    var mark := MarkLocal(a, after);
    var m := MemberLocal(text, key, v, a, mark + after);
    c := m + mark;
    JoinEndsIn(m, mark, '}');
    Regroup(m, mark, after);
    Regroup(m, mark, SkipSpace(a)[1..]);
    LastMemberAt(c + after, key, v, mark + after, after);
  }

  lemma {:induction false} FirstMemberLocal(text: string, key: string, v: Json, a: string, after: string)
    returns (c: string)
    requires StartsMember(text, key, v, a) && |a| < |text| && SkipSpace(a) != "" && SkipSpace(a)[0] == ','
    requires ParseMembers(SkipSpace(a)[1..]).Got?
    ensures var ms := ParseMembers(SkipSpace(a)[1..]);
            EndsIn(c, '}') && text == c + ms.rest && ParseMembers(c + after) == Got([Member(key, v)] + ms.value, after)
    decreases |text|, 1
  {
    var ms := ParseMembers(SkipSpace(a)[1..]);
    var d := MembersLocal(SkipSpace(a)[1..], after);
    var mark := MarkLocal(a, d + after);
    var m := MemberLocal(text, key, v, a, mark + (d + after));
    c := m + (mark + d);
    JoinEndsIn(mark, d, '}');
    JoinEndsIn(m, mark + d, '}');
    RegroupThree(m, mark, d, after);
    RegroupThree(m, mark, d, ms.rest);
    FirstMemberAt(c + after, key, v, mark + (d + after), d + after, ms.value, after);
  }

  // ---------- Prefixes of encoded text ----------

  /** A rune cut short: every byte of it stands for U+FFFD. */
  lemma CutRune(c: char, n: nat)
    requires n < |EncodeRune(c)|
    ensures forall i :: 0 <= i < |Decode(EncodeRune(c)[..n])| ==> Decode(EncodeRune(c)[..n])[i] == REPLACEMENT
  {
    CutBytes(EncodeRune(c)[..n]);
  }

  predicate Multibyte(b: byte) {
    b >= 0xC0
  }

  /** Bytes none of which starts a whole rune. */
  lemma {:induction false} CutBytes(b: Bytes)
    requires |b| <= 3
    requires forall i :: 0 < i < |b| ==> Continues(b[i])
    requires b != [] ==> Multibyte(b[0]) || Continues(b[0])
    requires b != [] && Multibyte(b[0]) ==> if b[0] < 0xE0 then |b| < 2 else if b[0] < 0xF0 then |b| < 3 else |b| < 4
    ensures forall i :: 0 <= i < |Decode(b)| ==> Decode(b)[i] == REPLACEMENT
  {
    if b != [] {
      assert DecodeRune(b) == Rune(REPLACEMENT, 1);
      CutBytes(b[1..]);
    }
  }

  /** Bytes of a text cut anywhere decode to the characters before the cut, and then nothing but U+FFFD. */
  lemma {:induction false} DecodeCut(t: string, n: nat) returns (k: nat)
    requires n < |Encode(t)|
    ensures k < |t| && k <= |Decode(Encode(t)[..n])| && Decode(Encode(t)[..n])[..k] == t[..k]
    ensures forall i :: k <= i < |Decode(Encode(t)[..n])| ==> Decode(Encode(t)[..n])[i] == REPLACEMENT
  {
    var e := EncodeRune(t[0]);
    if n < |e| {
      k := 0;
      assert Encode(t)[..n] == e[..n];
      CutRune(t[0], n);
    } else {
      var m := n - |e|;
      var j := DecodeCut(t[1..], m);
      k := j + 1;
      var rest := Encode(t[1..])[..m];
      assert Encode(t)[..n] == e + rest;
      DecodeStep(t[0], rest);
      assert Decode(Encode(t)[..n]) == [t[0]] + Decode(rest);
      assert t[..k] == [t[0]] + t[1..][..j];
    }
  }

  lemma ReplacementFails(text: string)
    requires text == "" || text[0] == REPLACEMENT
    ensures ParseValue(text).Fail?
  {
    if text != "" {
      OtherStep(text);
    }
  }

  lemma ObjectsOnly(d: string)
    requires d != "" && d[0] == '{' && ParseValue(d).Got?
    ensures ParseValue(d).value.Object?
  {
    if IsEmpty(d, '}') {
      assert ParseValue(d).value == Object([]);
    } else {
      ObjectParts(d);
    }
  }

  /** What is consumed of an object ends before any U+FFFD that all else is. */
  lemma EndsBeforeCut(d: string, k: nat) returns (c: string, rest: string)
    requires 0 < k <= |d| && d[0] == '{' && (forall i :: k <= i < |d| ==> d[i] == REPLACEMENT) && ParseValue(d).Got?
    ensures d == c + rest && rest == ParseValue(d).rest && |c| <= k
  {
    ObjectsOnly(d);
    rest := ParseValue(d).rest;
    c := ValueLocal(d, "");
    assert d[|c| - 1] == c[|c| - 1] == '}';
  }

  lemma CommonPrefix(c: string, rest: string, d: string, t: string, k: nat)
    requires d == c + rest && |c| <= k <= |d| && k <= |t| && d[..k] == t[..k]
    ensures t == c + t[|c|..]
  {
    assert forall i :: 0 <= i < |c| ==> c[i] == d[i] == d[..k][i] == t[..k][i] == t[i];
  }

  lemma SameParts(c: string, c': string, rest: string)
    requires c + rest == c' + rest
    ensures c == c'
  {
    assert c == (c + rest)[..|c|] == (c' + rest)[..|c'|] == c';
  }

  /** A text that parses, and follows another up to k and has nothing but U+FFFD from there on, parses alike with the
      other's end. */
  lemma ParsesAlike(d: string, t: string, k: nat) returns (rest: string)
    requires 0 < k < |t| && k <= |d| && d[..k] == t[..k] && t[0] == '{'
    requires (forall i :: k <= i < |d| ==> d[i] == REPLACEMENT) && ParseValue(d).Got?
    ensures rest != "" && ParseValue(t) == Got(ParseValue(d).value, rest)
  {
    assert d[0] == d[..k][0] == t[..k][0] == t[0];
    var c, r := EndsBeforeCut(d, k);
    CommonPrefix(c, r, d, t, k);
    rest := t[|c|..];
    ObjectsOnly(d);
    var c' := ValueLocal(d, rest);
    SameParts(c, c', r);
  }

  lemma FrontFails(ms: seq<Member>, d: string, k: nat)
    requires Printable(Object(ms)) && 0 < k < |Print(Object(ms))| && k <= |d| && d[..k] == Print(Object(ms))[..k]
    requires forall i :: k <= i < |d| ==> d[i] == REPLACEMENT
    ensures ParseValue(d).Fail?
  {
    if ParseValue(d).Got? {
      var rest := ParsesAlike(d, Print(Object(ms)), k);
      ObjectBack(ms, "");
      assert false;
    }
  }

  /** No strict prefix of an encoded object parses. */
  lemma CutObjectFails(ms: seq<Member>, n: nat)
    requires Printable(Object(ms)) && n < |Encode(Print(Object(ms)))|
    ensures ParseValue(Decode(Encode(Print(Object(ms)))[..n])).Fail?
  {
    var t := Print(Object(ms));
    var d := Decode(Encode(t)[..n]);
    var k := DecodeCut(t, n);
    if k == 0 {
      ReplacementFails(d);
    } else {
      FrontFails(ms, d, k);
    }
  }
}
