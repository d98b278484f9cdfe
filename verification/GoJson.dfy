/**
 Go's encoding/json on the shapes this repository uses: structs matched by
 case-folded field names, slices, pointers, and map[string]interface{}.
 Decoding writes onto the value already there, as Unmarshal does, so repeated
 keys, null, and unknown keys have their Go meaning.
 */
module GoJson {
  import opened Outcomes
  import opened Utf8
  import opened JsonText
  import opened Decimal

  datatype Field = Field(name: string, ty: Type)

  datatype Type =
    | StringT
    | IntT
    | BoolT
    | SliceT(elem: Type)
    | PtrT(elem: Type)
    | StructT(fields: seq<Field>)
    | MapT

  /** A Go value. The stale part of a slice is what a longer, earlier content left beyond its
      length; Unmarshal decodes onto it when the slice grows again. A map is its entries by key. */
  datatype Go =
    | GString(s: string)
    | GInt(n: int)
    | GBool(b: bool)
    | GNil
    | GSlice(elems: seq<Go>, stale: seq<Go>)
    | GPtr(to: Go)
    | GStruct(values: seq<Go>)
    | GMap(entries: seq<Member>)

  /** How a number literal comes back from a float64: None if it does not fit. */
  type Canon = string -> Option<string>

  ghost predicate GoodCanon(canon: Canon) {
    forall l {:trigger canon(l)} :: canon(l).Some? ==>
      ValidNumber(canon(l).value) && canon(canon(l).value) == canon(l)
  }

  // ---------- Types ----------

  predicate Fits(t: Type, v: Go)
    decreases v
  {
    match (t, v)
    case (StringT, GString(_)) => true
    case (IntT, GInt(n)) => MIN_INT <= n <= MAX_INT
    case (BoolT, GBool(_)) => true
    case (SliceT(_), GNil) => true
    case (SliceT(e), GSlice(elems, stale)) =>
      (forall i :: 0 <= i < |elems| ==> Fits(e, elems[i])) && (forall i :: 0 <= i < |stale| ==> Fits(e, stale[i]))
    case (PtrT(_), GNil) => true
    case (PtrT(e), GPtr(p)) => Fits(e, p)
    case (StructT(fs), GStruct(vs)) => |fs| == |vs| && forall i :: 0 <= i < |vs| ==> Fits(fs[i].ty, vs[i])
    case (MapT, GNil) => true
    case (MapT, GMap(_)) => true
    case _ => false
  }

  function Zero(t: Type): (v: Go)
    ensures Fits(t, v)
  {
    match t
    case StringT => GString("")
    case IntT => GInt(0)
    case BoolT => GBool(false)
    case StructT(fs) => GStruct(Zeros(fs))
    case _ => GNil
  }

  function Zeros(fs: seq<Field>): (vs: seq<Go>)
    ensures |vs| == |fs| && forall i :: 0 <= i < |fs| ==> vs[i] == Zero(fs[i].ty) && Fits(fs[i].ty, vs[i])
    decreases fs
  {
    if fs == [] then [] else
      assert forall i :: 0 <= i < |fs[1..]| ==> fs[1..][i] == fs[i + 1];
      [Zero(fs[0].ty)] + Zeros(fs[1..])
  }

  // ---------- Field names ----------

  /** Case folding, with the two non-ASCII characters that fold to ASCII letters. */
  function FoldChar(c: char): char {
    if 'a' <= c <= 'z' then (c as nat - 32) as char
    else if c == '\U{17F}' then 'S'
    else if c == '\U{212A}' then 'K'
    else c
  }

  predicate SameName(a: string, b: string) {
    |a| == |b| && forall i :: 0 <= i < |a| ==> FoldChar(a[i]) == FoldChar(b[i])
  }

  function FieldIndex(fs: seq<Field>, key: string): (k: nat)
    ensures k <= |fs|
    ensures k < |fs| ==> SameName(fs[k].name, key)
    ensures forall i :: 0 <= i < k ==> !SameName(fs[i].name, key)
  {
    if fs == [] then 0 else if SameName(fs[0].name, key) then 0 else 1 + FieldIndex(fs[1..], key)
  }

  predicate Distinct(fs: seq<Field>) {
    forall i, j :: 0 <= i < j < |fs| ==> !SameName(fs[i].name, fs[j].name)
  }

  predicate GoodType(t: Type)
    decreases t
  {
    match t
    case SliceT(e) => GoodType(e)
    case PtrT(e) => GoodType(e) && !e.PtrT? && !e.SliceT? && !e.MapT?
    case StructT(fs) => Distinct(fs) && forall i :: 0 <= i < |fs| ==> GoodType(fs[i].ty)
    case _ => true
  }

  // ---------- Maps ----------

  predicate Less(a: string, b: string) {
    b != "" && (a == "" || a[0] < b[0] || (a[0] == b[0] && Less(a[1..], b[1..])))
  }

  /** The entries of a Go map, in the key order json.Marshal writes them. */
  predicate Sorted(ms: seq<Member>) {
    forall i, j :: 0 <= i < j < |ms| ==> Less(ms[i].key, ms[j].key)
  }

  function Insert(ms: seq<Member>, m: Member): seq<Member> {
    if ms == [] then [m]
    else if ms[0].key == m.key then [m] + ms[1..]
    else if Less(m.key, ms[0].key) then [m] + ms
    else [ms[0]] + Insert(ms[1..], m)
  }

  /** A value decoded into an interface{}: numbers become float64, objects become maps. */
  function Interpret(canon: Canon, j: Json): Option<Json>
    decreases j
  {
    match j
    case Number(l) => (match canon(l) case None => None case Some(l') => Some(Number(l')))
    case Array(es) => (match InterpretAll(canon, es) case None => None case Some(es') => Some(Array(es')))
    case Object(ms) => (match InterpretInto(canon, [], ms) case None => None case Some(ms') => Some(Object(ms')))
    case Foreign => None
    case _ => Some(j)
  }

  function InterpretAll(canon: Canon, es: seq<Json>): Option<seq<Json>>
    decreases es
  {
    if es == [] then Some([])
    else
      match (Interpret(canon, es[0]), InterpretAll(canon, es[1..]))
      case (Some(e), Some(rest)) => Some([e] + rest)
      case _ => None
  }

  /** Decoding an object's members into a map that already has entries. */
  function InterpretInto(canon: Canon, entries: seq<Member>, ms: seq<Member>): Option<seq<Member>>
    decreases ms
  {
    if ms == [] then Some(entries)
    else
      match Interpret(canon, ms[0].value)
      case None => None
      case Some(v) => InterpretInto(canon, Insert(entries, Member(ms[0].key, v)), ms[1..])
  }

  // ---------- Encoding ----------

  function EncodeValue(t: Type, v: Go): Json
    requires Fits(t, v)
    decreases v
  {
    match v
    case GString(s) => Str(s)
    case GInt(n) => Number(PrintInt(n))
    case GBool(b) => Bool(b)
    case GNil => Null
    case GSlice(es, _) => Array(seq(|es|, i requires 0 <= i < |es| => EncodeValue(t.elem, es[i])))
    case GPtr(p) => EncodeValue(t.elem, p)
    case GStruct(vs) => Object(EncodeFields(t.fields, vs))
    case GMap(ms) => Object(ms)
  }

  function EncodeFields(fs: seq<Field>, vs: seq<Go>): seq<Member>
    requires |fs| == |vs| && forall i :: 0 <= i < |vs| ==> Fits(fs[i].ty, vs[i])
    decreases vs
  {
    seq(|vs|, i requires 0 <= i < |vs| => Member(fs[i].name, EncodeValue(fs[i].ty, vs[i])))
  }

  // ---------- Decoding ----------

  function DecodeValue(canon: Canon, t: Type, prev: Go, j: Json): (r: Option<Go>)
    requires Fits(t, prev)
    ensures r.Some? ==> Fits(t, r.value)
    decreases j, 1, t
  {
    match t
    case StringT => (match j case Null => Some(prev) case Str(s) => Some(GString(s)) case _ => None)
    case BoolT => (match j case Null => Some(prev) case Bool(b) => Some(GBool(b)) case _ => None)
    case IntT =>
      (match j
       case Null => Some(prev)
       case Number(l) => (match ParseInt(l) case None => None case Some(n) => Some(GInt(n)))
       case _ => None)
    case SliceT(e) =>
      (match j
       case Null => Some(GNil)
       case Array(es) =>
         var backing := if prev.GSlice? then prev.elems + prev.stale else [];
         (match DecodeElems(canon, e, backing, es)
          case None => None
          case Some(vs) => Some(GSlice(vs, if es == [] || |backing| <= |es| then [] else backing[|es|..])))
       case _ => None)
    case PtrT(e) =>
      if j.Null? then Some(GNil)
      else
        (match DecodeValue(canon, e, if prev.GPtr? then prev.to else Zero(e), j)
         case None => None
         case Some(v) => Some(GPtr(v)))
    case StructT(fs) =>
      (match j
       case Null => Some(prev)
       case Object(ms) =>
         (match DecodeFields(canon, fs, prev.values, ms) case None => None case Some(vs) => Some(GStruct(vs)))
       case _ => None)
    case MapT =>
      (match j
       case Null => Some(GNil)
       case Object(ms) =>
         (match InterpretInto(canon, if prev.GMap? then prev.entries else [], ms)
          case None => None
          case Some(es) => Some(GMap(es)))
       case _ => None)
  }

  /** Element i lands on what the backing array holds at i, or on a zero value past its end. */
  function DecodeElems(canon: Canon, e: Type, backing: seq<Go>, es: seq<Json>): (r: Option<seq<Go>>)
    requires forall i :: 0 <= i < |backing| ==> Fits(e, backing[i])
    ensures r.Some? ==> |r.value| == |es| && forall i :: 0 <= i < |es| ==> Fits(e, r.value[i])
    decreases es, 0
  {
    if es == [] then Some([])
    else
      match (DecodeValue(canon, e, if backing == [] then Zero(e) else backing[0], es[0]),
             DecodeElems(canon, e, if backing == [] then [] else backing[1..], es[1..]))
      case (Some(v), Some(vs)) => Some([v] + vs)
      case _ => None
  }

  /** Members are applied in the order of the text; a name that matches no field is skipped. */
  function DecodeFields(canon: Canon, fs: seq<Field>, vs: seq<Go>, ms: seq<Member>): (r: Option<seq<Go>>)
    requires |fs| == |vs| && forall i :: 0 <= i < |vs| ==> Fits(fs[i].ty, vs[i])
    ensures r.Some? ==> |fs| == |r.value| && forall i :: 0 <= i < |fs| ==> Fits(fs[i].ty, r.value[i])
    decreases ms, 0
  {
    if ms == [] then Some(vs)
    else
      var k := FieldIndex(fs, ms[0].key);
      if k == |fs| then DecodeFields(canon, fs, vs, ms[1..])
      else
        match DecodeValue(canon, fs[k].ty, vs[k], ms[0].value)
        case None => None
        case Some(v) => DecodeFields(canon, fs, vs[k := v], ms[1..])
  }

  // ---------- Bytes ----------

  function Marshal(t: Type, v: Go): Bytes
    requires Fits(t, v)
  {
    Encode(Print(EncodeValue(t, v)))
  }

  /** json.Unmarshal into a zero value of type t: None if the text or a value in it is rejected. */
  function Unmarshal(canon: Canon, t: Type, b: Bytes): (r: Option<Go>)
    ensures r.Some? ==> Fits(t, r.value)
  {
    match Parse(Decode(b))
    case None => None
    case Some(j) => DecodeValue(canon, t, Zero(t), j)
  }
}
