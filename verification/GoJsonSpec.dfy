/**
 What decoding means, without its algorithm: which entries a map ends up with,
 which member sets a field, what null does, and which keys name a field.
 */
module GoJsonSpec {
  import opened Outcomes
  import opened JsonText
  import opened Decimal
  import opened GoJson
  import opened GoJsonLaws

  // ---------- Maps ----------

  /** The value of the last member with the key. */
  function LastOf(ms: seq<Member>, key: string): Option<Json> {
    if ms == [] then None
    else
      var last := ms[|ms| - 1];
      if last.key == key then Some(last.value) else LastOf(ms[..|ms| - 1], key)
  }

  lemma {:induction false} LastOfJoin(ms: seq<Member>, more: seq<Member>, key: string)
    ensures LastOf(ms + more, key) == if LastOf(more, key).Some? then LastOf(more, key) else LastOf(ms, key)
  {
    if more == [] {
      assert ms + more == ms;
    } else {
      assert (ms + more)[..|ms + more| - 1] == ms + more[..|more| - 1];
      LastOfJoin(ms, more[..|more| - 1], key);
    }
  }

  lemma LastOfOne(m: Member, key: string)
    ensures LastOf([m], key) == if m.key == key then Some(m.value) else None
  {
    assert [m][..0] == [];
  }

  lemma LastOfCons(m: Member, ms: seq<Member>, key: string)
    ensures LastOf([m] + ms, key) ==
            if LastOf(ms, key).Some? then LastOf(ms, key) else if m.key == key then Some(m.value) else None
  {
    LastOfJoin([m], ms, key);
    LastOfOne(m, key);
  }

  lemma {:induction false} NotBelow(ms: seq<Member>, key: string)
    requires forall i :: 0 <= i < |ms| ==> ms[i].key != key
    ensures LastOf(ms, key) == None
  {
    if ms != [] {
      NotBelow(ms[..|ms| - 1], key);
    }
  }

  /** The first entry of a sorted list is the only one with its key. */
  lemma FirstIsOnly(ms: seq<Member>)
    requires Sorted(ms) && ms != []
    ensures LastOf(ms[1..], ms[0].key) == None
  {
    forall i | 0 <= i < |ms[1..]| ensures ms[1..][i].key != ms[0].key {
      LessIsStrict(ms[0].key, ms[i + 1].key);
    }
    NotBelow(ms[1..], ms[0].key);
  }

  /** Setting a key of a map changes that entry and no other. */
  lemma {:induction false} InsertSets(ms: seq<Member>, m: Member, key: string)
    requires Sorted(ms)
    ensures LastOf(Insert(ms, m), key) == if key == m.key then Some(m.value) else LastOf(ms, key)
  {
    if ms == [] {
      LastOfOne(m, key);
    } else {
      var rest := ms[1..];
      assert ms == [ms[0]] + rest;
      LastOfCons(ms[0], rest, key);
      FirstIsOnly(ms);
      if ms[0].key == m.key {
        LastOfCons(m, rest, key);
      } else if Less(m.key, ms[0].key) {
        LastOfCons(m, ms, key);
        NoneBelow(ms, m.key);
      } else {
        LastOfCons(ms[0], Insert(rest, m), key);
        InsertSets(rest, m, key);
      }
    }
  }

  lemma NoneBelow(ms: seq<Member>, key: string)
    requires Sorted(ms) && ms != [] && Less(key, ms[0].key)
    ensures LastOf(ms, key) == None
  {
    forall i | 0 <= i < |ms| ensures ms[i].key != key {
      if i > 0 {
        LessIsTransitive(key, ms[0].key, ms[i].key);
      }
      LessIsStrict(key, ms[i].key);
    }
    NotBelow(ms, key);
  }

  /** A map decoded from members in any order, onto entries it may already have: a key is there if a member or an
      entry has it; the last member with the key gives its value, and only without one does the old entry stay. */
  lemma {:induction false} InterpretIntoLooksUp(canon: Canon, entries: seq<Member>, ms: seq<Member>, key: string)
    requires Sorted(entries) && InterpretInto(canon, entries, ms).Some?
    ensures var r := InterpretInto(canon, entries, ms).value;
            && Sorted(r)
            && LastOf(r, key) == match LastOf(ms, key)
                                 case None => LastOf(entries, key)
                                 case Some(j) => Interpret(canon, j)
    ensures LastOf(ms, key).Some? ==> Interpret(canon, LastOf(ms, key).value).Some?
    decreases ms
  {
    if ms != [] {
      var m := Member(ms[0].key, Interpret(canon, ms[0].value).value);
      InsertSorted(entries, m);
      InsertSets(entries, m, key);
      InterpretIntoLooksUp(canon, Insert(entries, m), ms[1..], key);
      assert ms == [ms[0]] + ms[1..];
      LastOfCons(ms[0], ms[1..], key);
    }
  }

  /** It is refused exactly if some member's value is, one that is overwritten later included. */
  lemma {:induction false} InterpretIntoAccepts(canon: Canon, entries: seq<Member>, ms: seq<Member>)
    ensures InterpretInto(canon, entries, ms).Some? <==>
              forall i :: 0 <= i < |ms| ==> Interpret(canon, ms[i].value).Some?
    decreases ms
  {
    if ms != [] {
      assert forall i :: 0 <= i < |ms| ==> ms[i] == if i == 0 then ms[0] else ms[1..][i - 1];
      var v := Interpret(canon, ms[0].value);
      if v.Some? {
        InterpretIntoAccepts(canon, Insert(entries, Member(ms[0].key, v.value)), ms[1..]);
        assert forall i :: 0 <= i < |ms[1..]| ==> ms[1..][i] == ms[i + 1];
      }
    }
  }

  lemma {:induction false} InterpretAllIs(canon: Canon, es: seq<Json>)
    ensures InterpretAll(canon, es).Some? <==> forall i :: 0 <= i < |es| ==> Interpret(canon, es[i]).Some?
    ensures InterpretAll(canon, es).Some? ==>
              |InterpretAll(canon, es).value| == |es| &&
              forall i :: 0 <= i < |es| ==> Interpret(canon, es[i]) == Some(InterpretAll(canon, es).value[i])
  {
    if es != [] {
      InterpretAllIs(canon, es[1..]);
      assert forall i :: 0 <= i < |es| ==> es[i] == if i == 0 then es[0] else es[1..][i - 1];
      assert forall i :: 0 <= i < |es[1..]| ==> es[1..][i] == es[i + 1];
    }
  }

  /** v is what an interface{} holds of j: itself, but for numbers, which are rounded, and objects, which are maps. */
  ghost predicate Holds(canon: Canon, j: Json, v: Json)
    decreases v
  {
    match v
    case Null => j == Null
    case Bool(b) => j == Bool(b)
    case Str(s) => j == Str(s)
    case Number(l) => j.Number? && canon(j.lit) == Some(l)
    case Array(vs) => j.Array? && |j.elems| == |vs| && forall i :: 0 <= i < |vs| ==> Holds(canon, j.elems[i], vs[i])
    case Object(vs) =>
      && j.Object? && Sorted(vs)
      && (forall i :: 0 <= i < |vs| ==>
            LastOf(j.members, vs[i].key).Some? && Holds(canon, LastOf(j.members, vs[i].key).value, vs[i].value))
      && (forall key :: LastOf(j.members, key).Some? ==> LastOf(vs, key).Some?)
    case Foreign => false
  }

  lemma {:induction false} LastOfFound(ms: seq<Member>, key: string)
    requires LastOf(ms, key).Some?
    ensures exists i :: 0 <= i < |ms| && ms[i].key == key && ms[i].value == LastOf(ms, key).value
  {
    if ms[|ms| - 1].key != key {
      LastOfFound(ms[..|ms| - 1], key);
    }
  }

  lemma {:induction false} EntryIsLast(ms: seq<Member>, i: nat)
    requires Sorted(ms) && i < |ms|
    ensures LastOf(ms, ms[i].key) == Some(ms[i].value)
  {
    var last := ms[|ms| - 1];
    if i < |ms| - 1 {
      LessIsStrict(ms[i].key, last.key);
      EntryIsLast(ms[..|ms| - 1], i);
    }
  }

  /** Decoding into an interface{} makes that of a value. */
  lemma {:induction false} InterpretHolds(canon: Canon, j: Json)
    requires Interpret(canon, j).Some?
    ensures Holds(canon, j, Interpret(canon, j).value)
    decreases j
  {
    match j {
      case Array(es) =>
        InterpretAllIs(canon, es);
        forall i | 0 <= i < |es| ensures Holds(canon, es[i], Interpret(canon, es[i]).value) {
          InterpretHolds(canon, es[i]);
        }
      case Object(ms) => InterpretObjectHolds(canon, ms);
      case _ =>
    }
  }

  lemma {:induction false} InterpretObjectHolds(canon: Canon, ms: seq<Member>)
    requires InterpretInto(canon, [], ms).Some?
    ensures Holds(canon, Object(ms), Object(InterpretInto(canon, [], ms).value))
    decreases ms
  {
    var vs := InterpretInto(canon, [], ms).value;
    InterpretIntoLooksUp(canon, [], ms, "");
    forall i | 0 <= i < |vs|
      ensures LastOf(ms, vs[i].key).Some? && Holds(canon, LastOf(ms, vs[i].key).value, vs[i].value)
    {
      EntryIsLast(vs, i);
      InterpretIntoLooksUp(canon, [], ms, vs[i].key);
      LastOfFound(ms, vs[i].key);
      InterpretHolds(canon, LastOf(ms, vs[i].key).value);
    }
    forall key | LastOf(ms, key).Some? ensures LastOf(vs, key).Some? {
      InterpretIntoLooksUp(canon, [], ms, key);
    }
  }

  /** The values an interface{} takes: all but those with a number it cannot hold. */
  ghost predicate Holdable(canon: Canon, j: Json) {
    match j
    case Number(l) => canon(l).Some?
    case Array(es) => forall i :: 0 <= i < |es| ==> Holdable(canon, es[i])
    case Object(ms) => forall i :: 0 <= i < |ms| ==> Holdable(canon, ms[i].value)
    case Foreign => false
    case _ => true
  }

  lemma {:induction false} InterpretAccepts(canon: Canon, j: Json)
    ensures Interpret(canon, j).Some? <==> Holdable(canon, j)
    decreases j
  {
    match j {
      case Array(es) =>
        InterpretAllIs(canon, es);
        forall i | 0 <= i < |es| ensures Interpret(canon, es[i]).Some? <==> Holdable(canon, es[i]) {
          InterpretAccepts(canon, es[i]);
        }
      case Object(ms) =>
        InterpretIntoAccepts(canon, [], ms);
        forall i | 0 <= i < |ms| ensures Interpret(canon, ms[i].value).Some? <==> Holdable(canon, ms[i].value) {
          InterpretAccepts(canon, ms[i].value);
        }
      case _ =>
    }
  }

  /** The key order of encoded maps: at the first difference the smaller character comes first, and a prefix before
      what it is a prefix of. */
  lemma {:induction false} LessIsLexical(a: string, b: string, i: nat)
    requires i <= |a| && i <= |b| && a[..i] == b[..i]
    requires i == |a| || i == |b| || a[i] != b[i]
    ensures Less(a, b) <==> i < |b| && (i == |a| || a[i] < b[i])
    decreases i
  {
    if i > 0 {
      assert a[0] == a[..i][0] == b[..i][0] == b[0];
      assert a[1..][..i - 1] == a[..i][1..] == b[..i][1..] == b[1..][..i - 1];
      LessIsLexical(a[1..], b[1..], i - 1);
    }
  }

  // ---------- Fields ----------

  /** Which keys name a field: those that differ from it by the case of ASCII letters only, with the two characters
      outside ASCII that Unicode folds to S and K. */
  predicate Alike(c: char, d: char) {
    || c == d
    || ('a' <= c <= 'z' && d as int == c as int - 32)
    || ('a' <= d <= 'z' && c as int == d as int - 32)
    || {c, d} <= {'s', 'S', '\U{17F}'}
    || {c, d} <= {'k', 'K', '\U{212A}'}
  }

  lemma FoldsAlike(c: char, d: char)
    ensures FoldChar(c) == FoldChar(d) <==> Alike(c, d)
  {
  }

  lemma NamesField(name: string, key: string)
    ensures SameName(name, key) <==> |name| == |key| && forall i :: 0 <= i < |name| ==> Alike(name[i], key[i])
  {
    forall i | 0 <= i < |name| && i < |key|
      ensures FoldChar(name[i]) == FoldChar(key[i]) <==> Alike(name[i], key[i])
    {
      FoldsAlike(name[i], key[i]);
    }
  }

  /** A field keeps its value if no key names it, whatever else is in the text. */
  lemma {:induction false} UnnamedKept(canon: Canon, f: Field, v: Go, ms: seq<Member>)
    requires Fits(f.ty, v) && forall i :: 0 <= i < |ms| ==> !SameName(f.name, ms[i].key)
    ensures DecodeFields(canon, [f], [v], ms) == Some([v])
    decreases |ms|
  {
    if ms != [] {
      assert !SameName(f.name, ms[0].key);
      assert forall i :: 0 <= i < |ms[1..]| ==> ms[1..][i] == ms[i + 1];
      assert FieldIndex([f], ms[0].key) == 1;
      UnnamedKept(canon, f, v, ms[1..]);
    }
  }

  /** One more member sets a string, integer or boolean field if its key names it and its value is of that kind; null
      leaves it; a value of another kind is refused; and other keys do not matter. */
  lemma LastScalarWins(canon: Canon, f: Field, first: Go, ms: seq<Member>, m: Member)
    requires f.ty in {StringT, IntT, BoolT} && Fits(f.ty, first)
    requires DecodeFields(canon, [f], [first], ms).Some?
    ensures var before := DecodeFields(canon, [f], [first], ms);
            DecodeFields(canon, [f], [first], ms + [m]) ==
            if !SameName(f.name, m.key) || m.value.Null? then before
            else if f.ty.StringT? && m.value.Str? then Some([GString(m.value.s)])
            else if f.ty.BoolT? && m.value.Bool? then Some([GBool(m.value.b)])
            else if f.ty.IntT? && m.value.Number? && ParseInt(m.value.lit).Some? then
              Some([GInt(ParseInt(m.value.lit).value)])
            else None
  {
    DecodeJoin(canon, [f], [first], ms, [m]);
    var mid := DecodeFields(canon, [f], [first], ms).value;
    assert FieldIndex([f], m.key) == if SameName(f.name, m.key) then 0 else 1;
    assert Fits([f][0].ty, mid[0]);
    var v := DecodeValue(canon, f.ty, mid[0], m.value);
    assert v.Some? ==> mid[0 := v.value] == [v.value];
    assert mid == [mid[0]] && [m][1..] == [];
  }

  /** null makes a pointer, slice or map nil, and leaves a struct as it is. */
  lemma NullMeans(canon: Canon, t: Type, v: Go)
    requires Fits(t, v)
    ensures DecodeValue(canon, t, v, Null) == Some(if t.PtrT? || t.SliceT? || t.MapT? then GNil else v)
  {
  }

  /** What element i of an array is decoded onto: what the slice's memory holds there, or a zero value. */
  function Below(e: Type, backing: seq<Go>, i: nat): (v: Go)
    requires forall i :: 0 <= i < |backing| ==> Fits(e, backing[i])
    ensures Fits(e, v)
  {
    if i < |backing| then backing[i] else Zero(e)
  }

  /** Element i of an array lands on what the slice, or a longer one that was there before it, holds at i. */
  lemma {:induction false} ElemsLand(canon: Canon, e: Type, backing: seq<Go>, es: seq<Json>, i: nat)
    requires (forall i :: 0 <= i < |backing| ==> Fits(e, backing[i])) && DecodeElems(canon, e, backing, es).Some?
    requires i < |es|
    ensures DecodeValue(canon, e, Below(e, backing, i), es[i]) ==
            Some(DecodeElems(canon, e, backing, es).value[i])
    decreases i
  {
    if i > 0 {
      assert i < |backing| ==> Rest(backing)[i - 1] == backing[i];
      ElemsLand(canon, e, Rest(backing), es[1..], i - 1);
    }
  }

  function Rest(backing: seq<Go>): seq<Go> {
    if backing == [] then [] else backing[1..]
  }

  /** Element i of an array is of a kind that the slice takes there. */
  predicate Lands(canon: Canon, e: Type, backing: seq<Go>, es: seq<Json>, i: nat)
    requires (forall i :: 0 <= i < |backing| ==> Fits(e, backing[i])) && i < |es|
  {
    DecodeValue(canon, e, Below(e, backing, i), es[i]).Some?
  }

  lemma LandsLater(canon: Canon, e: Type, backing: seq<Go>, es: seq<Json>, i: nat)
    requires (forall i :: 0 <= i < |backing| ==> Fits(e, backing[i])) && i + 1 < |es|
    ensures forall i :: 0 <= i < |Rest(backing)| ==> Fits(e, Rest(backing)[i])
    ensures Lands(canon, e, backing, es, i + 1) == Lands(canon, e, Rest(backing), es[1..], i)
  {
  }

  lemma ElemsSplit(canon: Canon, e: Type, backing: seq<Go>, es: seq<Json>)
    requires (forall i :: 0 <= i < |backing| ==> Fits(e, backing[i])) && es != []
    ensures forall i :: 0 <= i < |Rest(backing)| ==> Fits(e, Rest(backing)[i])
    ensures DecodeElems(canon, e, backing, es).Some? <==>
              Lands(canon, e, backing, es, 0) && DecodeElems(canon, e, Rest(backing), es[1..]).Some?
  {
  }

  lemma {:induction false} ElemsAccept(canon: Canon, e: Type, backing: seq<Go>, es: seq<Json>)
    requires forall i :: 0 <= i < |backing| ==> Fits(e, backing[i])
    ensures DecodeElems(canon, e, backing, es).Some? <==>
              forall i :: 0 <= i < |es| ==> Lands(canon, e, backing, es, i)
    decreases es
  {
    if es != [] {
      ElemsSplit(canon, e, backing, es);
      ElemsAccept(canon, e, Rest(backing), es[1..]);
      forall i: nat | i + 1 < |es|
        ensures Lands(canon, e, backing, es, i + 1) == Lands(canon, e, Rest(backing), es[1..], i)
      {
        LandsLater(canon, e, backing, es, i);
      }
      forall i: nat | 1 <= i < |es|
        ensures Lands(canon, e, backing, es, i) == Lands(canon, e, Rest(backing), es[1..], i - 1)
      {
        LandsLater(canon, e, backing, es, i - 1);
      }
    }
  }

  /** What the array under a slice holds. */
  function Held(v: Go): seq<Go> {
    if v.GSlice? then v.elems + v.stale else []
  }

  /** Decoding an array onto a slice changes exactly the elements the text has; what the array under the slice holds
      after them stays, out of sight, and shows through when the slice grows again. An empty array lets go of it. */
  lemma SliceLands(canon: Canon, e: Type, prev: Go, es: seq<Json>)
    requires Fits(SliceT(e), prev)
    ensures var r, held := DecodeValue(canon, SliceT(e), prev, Array(es)), Held(prev);
            && (r.Some? <==> forall i :: 0 <= i < |es| ==> Lands(canon, e, held, es, i))
            && (r.Some? ==>
                  && r.value.GSlice? && |r.value.elems| == |es|
                  && (forall i :: 0 <= i < |es| ==>
                        DecodeValue(canon, e, Below(e, held, i), es[i]) == Some(Held(r.value)[i]))
                  && Held(r.value)[|es|..] == if 0 < |es| < |held| then held[|es|..] else [])
  {
    var r, held := DecodeValue(canon, SliceT(e), prev, Array(es)), Held(prev);
    ElemsAccept(canon, e, held, es);
    if r.Some? {
      forall i | 0 <= i < |es|
        ensures DecodeValue(canon, e, Below(e, held, i), es[i]) == Some(Held(r.value)[i])
      {
        ElemsLand(canon, e, held, es, i);
      }
    }
  }

  lemma {:induction false} InterpretIntoJoin(canon: Canon, entries: seq<Member>, ms: seq<Member>, more: seq<Member>)
    ensures InterpretInto(canon, entries, ms + more) ==
            match InterpretInto(canon, entries, ms)
            case None => None
            case Some(mid) => InterpretInto(canon, mid, more)
    decreases |ms|
  {
    if ms == [] {
      assert ms + more == more;
    } else {
      assert (ms + more)[0] == ms[0] && (ms + more)[1..] == ms[1..] + more;
      var v := Interpret(canon, ms[0].value);
      if v.Some? {
        InterpretIntoJoin(canon, Insert(entries, Member(ms[0].key, v.value)), ms[1..], more);
      }
    }
  }

  /** A struct, a map, or what a pointer points to takes two objects, one after the other, as it takes one object that
      has the members of both. */
  lemma ObjectsMerge(canon: Canon, t: Type, v: Go, ms: seq<Member>, more: seq<Member>)
    requires Fits(t, v) && (t.MapT? || t.StructT? || (t.PtrT? && t.elem.StructT?))
    ensures DecodeValue(canon, t, v, Object(ms + more)) ==
            match DecodeValue(canon, t, v, Object(ms))
            case None => None
            case Some(mid) => DecodeValue(canon, t, mid, Object(more))
  {
    if t.MapT? {
      InterpretIntoJoin(canon, if v.GMap? then v.entries else [], ms, more);
    } else if t.StructT? {
      DecodeJoin(canon, t.fields, v.values, ms, more);
    } else {
      ObjectsMerge(canon, t.elem, if v.GPtr? then v.to else Zero(t.elem), ms, more);
    }
  }

  /** The value of the last member that names a field and is not null. */
  function LastSetting(ms: seq<Member>, name: string): Option<Json> {
    if ms == [] then None
    else
      var last := ms[|ms| - 1];
      if SameName(name, last.key) && last.value != Null then Some(last.value) else LastSetting(ms[..|ms| - 1], name)
  }

  ghost predicate AllStrings(ms: seq<Member>, name: string) {
    forall i :: 0 <= i < |ms| && SameName(name, ms[i].key) ==> ms[i].value.Str? || ms[i].value.Null?
  }

  /** A string field ends up with the last setting, if every member that names it is a string or null; if not, the
      text is refused. */
  lemma {:induction false} StringField(canon: Canon, name: string, first: string, ms: seq<Member>)
    ensures var f, last := Field(name, StringT), LastSetting(ms, name);
            DecodeFields(canon, [f], [GString(first)], ms) ==
            if !AllStrings(ms, name) then None
            else Some([GString(if last.Some? && last.value.Str? then last.value.s else first)])
    decreases |ms|
  {
    if ms != [] {
      var f, front, last := Field(name, StringT), ms[..|ms| - 1], ms[|ms| - 1];
      assert ms == front + [last];
      StringField(canon, name, first, front);
      AllStringsSplit(front, last, name);
      if DecodeFields(canon, [f], [GString(first)], front).Some? {
        LastScalarWins(canon, f, GString(first), front, last);
      } else {
        DecodeJoin(canon, [f], [GString(first)], front, [last]);
      }
    }
  }

  lemma AllStringsSplit(front: seq<Member>, last: Member, name: string)
    ensures AllStrings(front + [last], name) <==>
              AllStrings(front, name) && (SameName(name, last.key) ==> last.value.Str? || last.value.Null?)
  {
    var ms := front + [last];
    assert forall i :: 0 <= i < |front| ==> ms[i] == front[i];
    assert ms[|front|] == last;
  }

  /** One more member that names a map field: an object adds to the map, replacing entries with its keys; null makes
      it nil; and other kinds are refused. */
  lemma LastMapMerges(canon: Canon, f: Field, ms: seq<Member>, m: Member)
    requires f.ty.MapT? && DecodeFields(canon, [f], [GNil], ms).Some?
    ensures var before := DecodeFields(canon, [f], [GNil], ms).value;
            DecodeFields(canon, [f], [GNil], ms + [m]) ==
            if !SameName(f.name, m.key) then Some(before)
            else if m.value.Null? then Some([GNil])
            else if !m.value.Object? then None
            else
              (match InterpretInto(canon, if before[0].GMap? then before[0].entries else [], m.value.members)
               case None => None
               case Some(es) => Some([GMap(es)]))
  {
    DecodeJoin(canon, [f], [GNil], ms, [m]);
    var mid := DecodeFields(canon, [f], [GNil], ms).value;
    assert FieldIndex([f], m.key) == if SameName(f.name, m.key) then 0 else 1;
    assert Fits([f][0].ty, mid[0]);
    var v := DecodeValue(canon, f.ty, mid[0], m.value);
    assert v.Some? ==> mid[0 := v.value] == [v.value];
    assert mid == [mid[0]] && [m][1..] == [];
  }
}
