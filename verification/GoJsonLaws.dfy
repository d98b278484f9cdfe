/** What decoding gives back of an encoding, and what two decodings of one text have in common. */
module GoJsonLaws {
  import opened Outcomes
  import Utf8
  import opened JsonText
  import opened Decimal
  import opened GoJson

  // ---------- Key order ----------

  lemma {:induction false} LessIsStrict(a: string, b: string)
    requires Less(a, b)
    ensures a != b && !Less(b, a)
  {
    if a != "" && a[0] == b[0] {
      LessIsStrict(a[1..], b[1..]);
    }
  }

  lemma {:induction false} LessIsTransitive(a: string, b: string, c: string)
    requires Less(a, b) && Less(b, c)
    ensures Less(a, c)
  {
    if a != "" && a[0] == b[0] == c[0] {
      LessIsTransitive(a[1..], b[1..], c[1..]);
    }
  }

  lemma {:induction false} LessIsTotal(a: string, b: string)
    ensures a == b || Less(a, b) || Less(b, a)
  {
    if a != "" && b != "" && a[0] == b[0] {
      LessIsTotal(a[1..], b[1..]);
      assert a == [a[0]] + a[1..] && b == [b[0]] + b[1..];
    }
  }

  lemma {:induction false} InsertLast(ms: seq<Member>, m: Member)
    requires forall i :: 0 <= i < |ms| ==> Less(ms[i].key, m.key)
    ensures Insert(ms, m) == ms + [m]
  {
    if ms != [] {
      LessIsStrict(ms[0].key, m.key);
      InsertLast(ms[1..], m);
      assert ms + [m] == [ms[0]] + (ms[1..] + [m]);
    }
  }

  lemma {:induction false} InsertHolds(ms: seq<Member>, m: Member, i: nat)
    requires i < |Insert(ms, m)|
    ensures var n := Insert(ms, m)[i]; n == m || n in ms
  {
    if ms != [] && ms[0].key != m.key && !Less(m.key, ms[0].key) && i > 0 {
      InsertHolds(ms[1..], m, i - 1);
    }
  }

  /** Inserting keeps the keys of a map in order, so without repeats. */
  lemma {:induction false} InsertSorted(ms: seq<Member>, m: Member)
    requires Sorted(ms)
    ensures Sorted(Insert(ms, m))
  {
    if ms == [] || ms[0].key == m.key {
    } else if Less(m.key, ms[0].key) {
      forall j | 0 <= j < |ms| ensures Less(m.key, ms[j].key) {
        if j > 0 {
          LessIsTransitive(m.key, ms[0].key, ms[j].key);
        }
      }
    } else {
      LessIsTotal(ms[0].key, m.key);
      var rest := Insert(ms[1..], m);
      InsertSorted(ms[1..], m);
      forall j | 0 <= j < |rest| ensures Less(ms[0].key, rest[j].key) {
        InsertHolds(ms[1..], m, j);
      }
    }
  }

  // ---------- interface{} values ----------

  /** A value that one trip through an interface{} leaves alone. */
  ghost predicate Stable(canon: Canon, j: Json) {
    match j
    case Number(l) => ValidNumber(l) && canon(l) == Some(l)
    case Array(es) => forall i :: 0 <= i < |es| ==> Stable(canon, es[i])
    case Object(ms) => Sorted(ms) && forall i :: 0 <= i < |ms| ==> Stable(canon, ms[i].value)
    case Foreign => false
    case _ => true
  }

  lemma {:induction false} StableIsPrintable(canon: Canon, j: Json)
    requires Stable(canon, j)
    ensures Printable(j)
  {
    match j {
      case Array(es) =>
        forall i | 0 <= i < |es| ensures Printable(es[i]) {
          StableIsPrintable(canon, es[i]);
        }
      case Object(ms) =>
        forall i | 0 <= i < |ms| ensures Printable(ms[i].value) {
          StableIsPrintable(canon, ms[i].value);
        }
      case _ =>
    }
  }

  lemma {:induction false} InterpretStable(canon: Canon, j: Json)
    requires Stable(canon, j)
    ensures Interpret(canon, j) == Some(j)
    decreases j, 0
  {
    match j {
      case Array(es) => InterpretAllStable(canon, es);
      case Object(ms) =>
        InterpretIntoStable(canon, ms, 0);
        assert ms[..0] == [] && ms[0..] == ms;
      case _ =>
    }
  }

  lemma {:induction false} InterpretAllStable(canon: Canon, es: seq<Json>)
    requires forall i :: 0 <= i < |es| ==> Stable(canon, es[i])
    ensures InterpretAll(canon, es) == Some(es)
    decreases es, 0
  {
    if es != [] {
      InterpretStable(canon, es[0]);
      InterpretAllStable(canon, es[1..]);
      assert es == [es[0]] + es[1..];
    }
  }

  lemma {:induction false} InterpretIntoStable(canon: Canon, ms: seq<Member>, i: nat)
    requires Sorted(ms) && forall i :: 0 <= i < |ms| ==> Stable(canon, ms[i].value)
    requires i <= |ms|
    ensures InterpretInto(canon, ms[..i], ms[i..]) == Some(ms)
    decreases ms, |ms| - i
  {
    if i < |ms| {
      InterpretStable(canon, ms[i].value);
      InsertLast(ms[..i], ms[i]);
      assert ms[..i] + [ms[i]] == ms[..i + 1] && ms[i..][1..] == ms[i + 1..];
      InterpretIntoStable(canon, ms, i + 1);
    } else {
      assert ms[..i] == ms;
    }
  }

  /** Whatever an interface{} accepts, it holds in stable form. */
  lemma {:induction false} InterpretGivesStable(canon: Canon, j: Json)
    requires GoodCanon(canon)
    requires Interpret(canon, j).Some?
    ensures Stable(canon, Interpret(canon, j).value)
    decreases j, 0
  {
    match j {
      case Array(es) => InterpretAllGivesStable(canon, es);
      case Object(ms) => InterpretIntoGivesStable(canon, [], ms);
      case _ =>
    }
  }

  lemma {:induction false} InterpretAllGivesStable(canon: Canon, es: seq<Json>)
    requires GoodCanon(canon)
    requires InterpretAll(canon, es).Some?
    ensures var r := InterpretAll(canon, es).value; forall i :: 0 <= i < |r| ==> Stable(canon, r[i])
    decreases es, 0
  {
    if es != [] {
      InterpretGivesStable(canon, es[0]);
      InterpretAllGivesStable(canon, es[1..]);
    }
  }

  ghost predicate StableEntries(canon: Canon, ms: seq<Member>) {
    Sorted(ms) && forall i :: 0 <= i < |ms| ==> Stable(canon, ms[i].value)
  }

  lemma {:induction false} InterpretIntoGivesStable(canon: Canon, entries: seq<Member>, ms: seq<Member>)
    requires GoodCanon(canon)
    requires StableEntries(canon, entries)
    requires InterpretInto(canon, entries, ms).Some?
    ensures StableEntries(canon, InterpretInto(canon, entries, ms).value)
    decreases ms, 0
  {
    if ms != [] {
      InterpretGivesStable(canon, ms[0].value);
      var m := Member(ms[0].key, Interpret(canon, ms[0].value).value);
      InsertSorted(entries, m);
      forall i | 0 <= i < |Insert(entries, m)| ensures Stable(canon, Insert(entries, m)[i].value) {
        InsertHolds(entries, m, i);
      }
      InterpretIntoGivesStable(canon, Insert(entries, m), ms[1..]);
    }
  }

  // ---------- Decoding an encoding ----------

  /** A value as its owner builds it: no stale slice elements, and only stable map entries. */
  ghost predicate Carried(canon: Canon, v: Go) {
    match v
    case GSlice(es, stale) => stale == [] && forall i :: 0 <= i < |es| ==> Carried(canon, es[i])
    case GPtr(p) => Carried(canon, p)
    case GStruct(vs) => forall i :: 0 <= i < |vs| ==> Carried(canon, vs[i])
    case GMap(ms) => StableEntries(canon, ms)
    case _ => true
  }

  lemma {:induction false} EncodeIsPrintable(canon: Canon, t: Type, v: Go)
    requires Fits(t, v) && Carried(canon, v)
    ensures Printable(EncodeValue(t, v))
  {
    match v {
      case GInt(n) => IntIsNumber(n);
      case GSlice(es, _) =>
        forall i | 0 <= i < |es| ensures Printable(EncodeValue(t.elem, es[i])) {
          EncodeIsPrintable(canon, t.elem, es[i]);
        }
      case GPtr(p) => EncodeIsPrintable(canon, t.elem, p);
      case GStruct(vs) =>
        forall i | 0 <= i < |vs| ensures Printable(EncodeValue(t.fields[i].ty, vs[i])) {
          EncodeIsPrintable(canon, t.fields[i].ty, vs[i]);
        }
      case GMap(ms) =>
        forall i | 0 <= i < |ms| ensures Printable(ms[i].value) {
          StableIsPrintable(canon, ms[i].value);
        }
      case _ =>
    }
  }

  lemma EncodeOne(f: Field, v: Go)
    requires Fits(StructT([f]), GStruct([v])) && Fits(f.ty, v)
    ensures EncodeValue(StructT([f]), GStruct([v])) == Object([Member(f.name, EncodeValue(f.ty, v))])
  {
    assert EncodeFields([f], [v]) == [Member(f.name, EncodeValue(f.ty, v))];
  }

  lemma EncodeTwo(f: Field, v: Go, g: Field, w: Go)
    requires Fits(StructT([f, g]), GStruct([v, w])) && Fits(f.ty, v) && Fits(g.ty, w)
    ensures EncodeValue(StructT([f, g]), GStruct([v, w])) ==
            Object([Member(f.name, EncodeValue(f.ty, v)), Member(g.name, EncodeValue(g.ty, w))])
  {
    assert EncodeFields([f, g], [v, w]) ==
           [Member(f.name, EncodeValue(f.ty, v)), Member(g.name, EncodeValue(g.ty, w))];
  }

  lemma EncodeField(fs: seq<Field>, vs: seq<Go>, k: nat)
    requires Fits(StructT(fs), GStruct(vs)) && k < |fs|
    ensures Fits(fs[k].ty, vs[k]) && EncodeValue(StructT(fs), GStruct(vs)).Object?
    ensures |EncodeValue(StructT(fs), GStruct(vs)).members| == |fs|
    ensures EncodeValue(StructT(fs), GStruct(vs)).members[k] == Member(fs[k].name, EncodeValue(fs[k].ty, vs[k]))
  {
  }

  lemma {:induction false} DecodeEncode(canon: Canon, t: Type, v: Go)
    requires Fits(t, v) && Carried(canon, v) && GoodType(t)
    ensures DecodeValue(canon, t, Zero(t), EncodeValue(t, v)) == Some(v)
    decreases v, 0
  {
    match v {
      case GInt(n) => IntBack(n);
      case GSlice(es, _) => ElemsDecode(canon, t.elem, es);
      case GPtr(p) =>
        DecodeEncode(canon, t.elem, p);
        assert !EncodeValue(t.elem, p).Null?;
      case GStruct(vs) =>
        FieldsDecode(canon, t.fields, vs);
      case GMap(ms) =>
        InterpretIntoStable(canon, ms, 0);
        assert ms[..0] == [] && ms[0..] == ms;
      case _ =>
    }
  }

  lemma {:induction false} ElemsDecode(canon: Canon, e: Type, es: seq<Go>)
    requires GoodType(e) && forall i :: 0 <= i < |es| ==> Fits(e, es[i]) && Carried(canon, es[i])
    ensures DecodeElems(canon, e, [], seq(|es|, i requires 0 <= i < |es| => EncodeValue(e, es[i]))) == Some(es)
    decreases es, 0
  {
    if es != [] {
      var js := seq(|es|, i requires 0 <= i < |es| => EncodeValue(e, es[i]));
      assert js[1..] == seq(|es[1..]|, i requires 0 <= i < |es[1..]| => EncodeValue(e, es[1..][i]));
      DecodeEncode(canon, e, es[0]);
      ElemsDecode(canon, e, es[1..]);
      assert es == [es[0]] + es[1..];
    }
  }

  lemma FieldFound(fs: seq<Field>, i: nat)
    requires Distinct(fs) && i < |fs|
    ensures FieldIndex(fs, fs[i].name) == i
  {
    var k := FieldIndex(fs, fs[i].name);
    assert SameName(fs[i].name, fs[i].name);
    assert k <= i;
  }

  ghost predicate AllFit(fs: seq<Field>, vs: seq<Go>) {
    |fs| == |vs| && forall i :: 0 <= i < |vs| ==> Fits(fs[i].ty, vs[i])
  }

  lemma DecodeOneField(canon: Canon, fs: seq<Field>, vs: seq<Go>, k: nat, v: Go, ms: seq<Member>)
    requires AllFit(fs, vs) && ms != [] && k < |fs| && FieldIndex(fs, ms[0].key) == k
    requires DecodeValue(canon, fs[k].ty, vs[k], ms[0].value) == Some(v)
    ensures AllFit(fs, vs[k := v])
    ensures DecodeFields(canon, fs, vs, ms) == DecodeFields(canon, fs, vs[k := v], ms[1..])
  {
  }

  /** The first of two members, when its key is that of the first of two fields. */
  lemma DecodeFirst(canon: Canon, f: Field, g: Field, v: Go, v': Go, w: Go, m: Member, n: Member)
    requires AllFit([f, g], [v, w]) && FieldIndex([f, g], m.key) == 0
    requires DecodeValue(canon, f.ty, v, m.value) == Some(v')
    ensures AllFit([f, g], [v', w])
    ensures DecodeFields(canon, [f, g], [v, w], [m, n]) == DecodeFields(canon, [f, g], [v', w], [n])
  {
    DecodeOneField(canon, [f, g], [v, w], 0, v', [m, n]);
    assert [m, n][1..] == [n] && [v, w][0 := v'] == [v', w];
  }

  /** Nothing decodes from no bytes. */
  lemma NothingDecodes(canon: Canon, t: Type)
    ensures Unmarshal(canon, t, []) == None
  {
    assert Utf8.Decode([]) == "";
    assert ParseValue("").Fail?;
  }

  /** Each member carries one field: decoded onto the field's first value, it gives the field of vs. */
  ghost predicate Carries(canon: Canon, fs: seq<Field>, first: seq<Go>, ms: seq<Member>, vs: seq<Go>)
    requires AllFit(fs, first)
  {
    && |ms| == |vs| == |fs|
    && forall k :: 0 <= k < |fs| ==>
      ms[k].key == fs[k].name && DecodeValue(canon, fs[k].ty, first[k], ms[k].value) == Some(vs[k])
  }

  /** Such members, in field order, fill the struct from the front. */
  lemma {:induction false} FillFields(canon: Canon, fs: seq<Field>, first: seq<Go>, ms: seq<Member>, vs: seq<Go>,
      i: nat, now: seq<Go>)
    requires Distinct(fs) && AllFit(fs, first) && AllFit(fs, now) && Carries(canon, fs, first, ms, vs)
    requires i <= |fs| && forall k :: 0 <= k < |fs| ==> now[k] == if k < i then vs[k] else first[k]
    ensures DecodeFields(canon, fs, now, ms[i..]) == Some(vs)
    decreases |fs| - i
  {
    if i == |fs| {
      assert now == vs;
    } else {
      FieldFound(fs, i);
      assert ms[i..][0] == ms[i] && ms[i..][1..] == ms[i + 1..];
      DecodeOneField(canon, fs, now, i, vs[i], ms[i..]);
      FillFields(canon, fs, first, ms, vs, i + 1, now[i := vs[i]]);
    }
  }

  lemma {:induction false} FieldsDecode(canon: Canon, fs: seq<Field>, vs: seq<Go>)
    requires Distinct(fs) && AllFit(fs, vs)
    requires forall k :: 0 <= k < |vs| ==> Carried(canon, vs[k]) && GoodType(fs[k].ty)
    ensures DecodeFields(canon, fs, Zeros(fs), EncodeFields(fs, vs)) == Some(vs)
    decreases vs, 0
  {
    var ms := EncodeFields(fs, vs);
    forall k | 0 <= k < |ms|
      ensures ms[k].key == fs[k].name && DecodeValue(canon, fs[k].ty, Zeros(fs)[k], ms[k].value) == Some(vs[k])
    {
      DecodeEncode(canon, fs[k].ty, vs[k]);
    }
    FillFields(canon, fs, Zeros(fs), ms, vs, 0, Zeros(fs));
    assert ms[0..] == ms;
  }

  /** Unmarshalling printed text is decoding the value that was printed. */
  lemma UnmarshalPrinted(canon: Canon, t: Type, j: Json)
    requires Printable(j)
    ensures Unmarshal(canon, t, Utf8.Encode(Print(j))) == DecodeValue(canon, t, Zero(t), j)
  {
    Utf8.RoundTrip(Print(j));
    ParsePrint(j);
  }

  lemma UnmarshalMarshalled(canon: Canon, t: Type, v: Go)
    requires Fits(t, v) && Printable(EncodeValue(t, v))
    ensures Unmarshal(canon, t, Marshal(t, v)) == DecodeValue(canon, t, Zero(t), EncodeValue(t, v))
  {
    UnmarshalPrinted(canon, t, EncodeValue(t, v));
  }

  /** Unmarshal gives back what Marshal wrote. */
  lemma UnmarshalMarshal(canon: Canon, t: Type, v: Go)
    requires Fits(t, v) && Carried(canon, v) && GoodType(t)
    ensures Unmarshal(canon, t, Marshal(t, v)) == Some(v)
  {
    EncodeIsPrintable(canon, t, v);
    UnmarshalPrinted(canon, t, EncodeValue(t, v));
    DecodeEncode(canon, t, v);
  }

  /** Two values with the same encoding are the same value. */
  lemma MarshalInjective(canon: Canon, t: Type, v: Go, w: Go)
    requires Fits(t, v) && Carried(canon, v) && Fits(t, w) && Carried(canon, w) && GoodType(t)
    ensures Marshal(t, v) == Marshal(t, w) <==> v == w
  {
    UnmarshalMarshal(canon, t, v);
    UnmarshalMarshal(canon, t, w);
  }

  // ---------- Two decodings of one text ----------

  /** Decoding a whole struct and decoding its field k alone agree on that field. */
  lemma {:induction false} ProjectFields(canon: Canon, fs: seq<Field>, vs: seq<Go>, k: nat, ms: seq<Member>)
    requires |fs| == |vs| && Distinct(fs) && k < |fs|
    requires forall i :: 0 <= i < |vs| ==> Fits(fs[i].ty, vs[i])
    requires DecodeFields(canon, fs, vs, ms).Some?
    ensures DecodeFields(canon, [fs[k]], [vs[k]], ms) == Some([DecodeFields(canon, fs, vs, ms).value[k]])
    decreases ms
  {
    if ms != [] {
      var f := FieldIndex(fs, ms[0].key);
      SameFieldFound(fs, k, ms[0].key);
      if f == |fs| {
        ProjectFields(canon, fs, vs, k, ms[1..]);
      } else {
        var v := DecodeValue(canon, fs[f].ty, vs[f], ms[0].value).value;
        ProjectFields(canon, fs, vs[f := v], k, ms[1..]);
        assert f == k ==> [vs[k]][0 := v] == [v];
      }
    }
  }

  lemma SameFieldFound(fs: seq<Field>, k: nat, key: string)
    requires Distinct(fs) && k < |fs|
    ensures FieldIndex([fs[k]], key) == (if FieldIndex(fs, key) == k then 0 else 1)
  {
    var f := FieldIndex(fs, key);
    if f < |fs| && f != k {
      assert !SameName(fs[f].name, fs[k].name) && !SameName(fs[k].name, fs[f].name);
    }
  }

  /** Members are decoded one after the other, each onto what those before it left. */
  lemma {:induction false} DecodeJoin(canon: Canon, fs: seq<Field>, vs: seq<Go>, ms: seq<Member>, more: seq<Member>)
    requires AllFit(fs, vs)
    ensures DecodeFields(canon, fs, vs, ms + more) ==
            match DecodeFields(canon, fs, vs, ms)
            case None => None
            case Some(mid) => DecodeFields(canon, fs, mid, more)
    decreases |ms|
  {
    if ms == [] {
      assert ms + more == more;
    } else {
      assert (ms + more)[1..] == ms[1..] + more;
      var k := FieldIndex(fs, ms[0].key);
      if k == |fs| {
        DecodeJoin(canon, fs, vs, ms[1..], more);
      } else {
        var v := DecodeValue(canon, fs[k].ty, vs[k], ms[0].value);
        if v.Some? {
          DecodeJoin(canon, fs, vs[k := v.value], ms[1..], more);
        }
      }
    }
  }
}
