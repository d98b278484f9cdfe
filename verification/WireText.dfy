/** The texts on the wire, letter by letter: what each request, reply and configuration looks like in JSON. */
module WireText {
  import opened Outcomes
  import opened Utf8
  import opened Text
  import opened JsonText
  import opened Decimal
  import opened GoJson
  import opened GoJsonLaws
  import opened Messages

  // ---------- Arrays and objects ----------

  function ElemTexts(es: seq<Json>): seq<string> {
    if es == [] then [] else [Print(es[0])] + ElemTexts(es[1..])
  }

  function MemberText(m: Member): string {
    Quote(m.key, "") + (":" + Print(m.value))
  }

  function MemberTexts(ms: seq<Member>): seq<string> {
    if ms == [] then [] else [MemberText(ms[0])] + MemberTexts(ms[1..])
  }

  lemma {:induction false} ElemsText(es: seq<Json>)
    requires es != []
    ensures PrintElems(es, "") == Join(ElemTexts(es), ',') + "]"
  {
    var texts := ElemTexts(es);
    if |es| == 1 {
      PrintBefore(es[0], "]" + "");
      assert es[1..] == [] && texts == [Print(es[0])];
    } else {
      var more := PrintElems(es[1..], "");
      ElemsText(es[1..]);
      PrintBefore(es[0], "," + more);
      assert texts[1..] == ElemTexts(es[1..]) && |ElemTexts(es[1..])| > 0;
      JoinCons(Print(es[0]), ElemTexts(es[1..]), "]");
    }
  }

  lemma JoinCons(first: string, rest: seq<string>, end: string)
    requires rest != []
    ensures first + ("," + (Join(rest, ',') + end)) == Join([first] + rest, ',') + end
  {
    assert ([first] + rest)[1..] == rest;
  }

  /** An array is its elements between brackets, with commas and nothing else. */
  lemma ArrayText(es: seq<Json>)
    ensures Print(Array(es)) == "[" + Join(ElemTexts(es), ',') + "]"
  {
    if es != [] {
      ElemsText(es);
    }
  }

  lemma QuoteBefore(key: string, more: string)
    ensures Quote(key, more) == Quote(key, "") + more
  {
    QuoteFront(key, "", more);
    assert "" + more == more;
  }

  lemma MemberFront(m: Member, more: string)
    ensures Quote(m.key, ":" + PrintOn(m.value, more)) == MemberText(m) + more
  {
    PrintBefore(m.value, more);
    JsonText.RegroupText(":", Print(m.value), more);
    QuoteBefore(m.key, (":" + Print(m.value)) + more);
    JsonText.RegroupText(Quote(m.key, ""), ":" + Print(m.value), more);
  }

  lemma {:induction false} MembersText(ms: seq<Member>)
    requires ms != []
    ensures PrintMembers(ms, "") == Join(MemberTexts(ms), ',') + "}"
  {
    if |ms| == 1 {
      MemberFront(ms[0], "}" + "");
      assert ms[1..] == [] && MemberTexts(ms) == [MemberText(ms[0])];
    } else {
      MembersText(ms[1..]);
      MemberFront(ms[0], "," + PrintMembers(ms[1..], ""));
      JoinCons(MemberText(ms[0]), MemberTexts(ms[1..]), "}");
    }
  }

  /** An object is its members between braces, each a quoted key, a colon and a value. */
  lemma ObjectText(ms: seq<Member>)
    ensures Print(Object(ms)) == "{" + Join(MemberTexts(ms), ',') + "}"
  {
    if ms != [] {
      MembersText(ms);
    }
  }

  // ---------- Keys ----------

  /** Text that is written as it is. */
  predicate PlainText(s: string) {
    forall i :: 0 <= i < |s| ==> ('a' <= s[i] <= 'z' || 'A' <= s[i] <= 'Z')
  }

  lemma {:induction false} PlainEscape(s: string, rest: string)
    requires PlainText(s)
    ensures Escape(s, rest) == s + rest
  {
    if s != "" {
      assert EscapeChar(s[0]) == [s[0]];
      PlainEscape(s[1..], rest);
      assert s + rest == [s[0]] + (s[1..] + rest);
    }
  }

  function Pair(key: string, text: string): string {
    "\"" + key + "\":" + text
  }

  function Braces(parts: seq<string>): string {
    "{" + Join(parts, ',') + "}"
  }

  function Brackets(parts: seq<string>): string {
    "[" + Join(parts, ',') + "]"
  }

  lemma PlainQuote(key: string)
    requires PlainText(key)
    ensures Quote(key, "") == "\"" + (key + "\"")
  {
    PlainEscape(key, "\"" + "");
    assert "\"" + "" == "\"";
  }

  lemma RegroupKey(key: string, text: string)
    ensures ("\"" + (key + "\"")) + (":" + text) == "\"" + key + "\":" + text
  {
    assert "\":" == "\"" + ":";
  }

  lemma KeyText(key: string, v: Json)
    requires PlainText(key)
    ensures MemberText(Member(key, v)) == Pair(key, Print(v))
  {
    PlainQuote(key);
    RegroupKey(key, Print(v));
  }

  function PairTexts(ms: seq<Member>): seq<string> {
    if ms == [] then [] else [Pair(ms[0].key, Print(ms[0].value))] + PairTexts(ms[1..])
  }

  lemma {:induction false} PlainMembers(ms: seq<Member>)
    requires forall i :: 0 <= i < |ms| ==> PlainText(ms[i].key)
    ensures MemberTexts(ms) == PairTexts(ms)
  {
    if ms != [] {
      KeyText(ms[0].key, ms[0].value);
      assert forall i :: 0 <= i < |ms[1..]| ==> ms[1..][i] == ms[i + 1];
      PlainMembers(ms[1..]);
    }
  }

  /** An object with plain keys, as text. */
  lemma StructText(ms: seq<Member>)
    requires forall i :: 0 <= i < |ms| ==> PlainText(ms[i].key)
    ensures Print(Object(ms)) == Braces(PairTexts(ms))
  {
    ObjectText(ms);
    PlainMembers(ms);
  }

  lemma OnePair(m: Member)
    ensures PairTexts([m]) == [Pair(m.key, Print(m.value))]
  {
    assert [m][1..] == [];
  }

  lemma TwoPairs(m: Member, n: Member)
    ensures PairTexts([m, n]) == [Pair(m.key, Print(m.value)), Pair(n.key, Print(n.value))]
  {
    assert [m, n][1..] == [n];
    OnePair(n);
  }

  lemma ThreePairs(m: Member, n: Member, o: Member)
    ensures PairTexts([m, n, o]) ==
            [Pair(m.key, Print(m.value)), Pair(n.key, Print(n.value)), Pair(o.key, Print(o.value))]
  {
    assert [m, n, o][1..] == [n, o];
    TwoPairs(n, o);
  }

  lemma FourPairs(m: Member, n: Member, o: Member, p: Member)
    ensures PairTexts([m, n, o, p]) ==
            [Pair(m.key, Print(m.value)), Pair(n.key, Print(n.value)), Pair(o.key, Print(o.value)),
             Pair(p.key, Print(p.value))]
  {
    assert [m, n, o, p][1..] == [n, o, p];
    ThreePairs(n, o, p);
  }

  lemma StringText(s: string)
    ensures Print(Str(s)) == Quote(s, "")
  {
  }

  lemma NumberText(n: int)
    ensures Print(Number(PrintInt(n))) == PrintInt(n)
  {
    assert PrintInt(n) + "" == PrintInt(n);
  }

  lemma WordTexts()
    ensures Print(Null) == "null" && Print(Bool(true)) == "true" && Print(Bool(false)) == "false"
  {
    assert "null" + "" == "null" && "true" + "" == "true" && "false" + "" == "false";
  }

  // ---------- Requests ----------

  /** The body of a request. */
  function RequestText(c: Call): string
    requires HasBody(c.Op())
  {
    if c.Create? then
      Braces([Pair("Name", Quote(c.name, "")),
              Pair("Opts", if c.opts.None? then "null" else Braces(MemberTexts(c.opts.value)))])
    else Braces([Pair("Name", Quote(c.name, ""))])
  }

  lemma RequestOnWire(c: Call)
    requires HasBody(c.Op())
    ensures MarshalCall(c) == Encode(RequestText(c))
  {
    StringText(c.name);
    if c.Create? {
      EncodeCreate(c.name, c.opts);
      var m, n := Member("Name", Str(c.name)), Member("Opts", if c.opts.None? then Null else Object(c.opts.value));
      StructText([m, n]);
      TwoPairs(m, n);
      WordTexts();
      if c.opts.Some? {
        ObjectText(c.opts.value);
      }
    } else {
      var m := Member("Name", Str(c.name));
      EncodeOne(Field("Name", StringT), GString(c.name));
      StructText([m]);
      OnePair(m);
    }
  }

  // ---------- Replies ----------

  function VolumeText(v: VolumeInfo): string {
    Braces([Pair("Name", Quote(v.name, "")), Pair("Mountpoint", Quote(v.mountpoint, "")),
            Pair("MountCount", PrintInt(v.mountCount))])
  }

  function StringTexts(ss: seq<string>): seq<string> {
    if ss == [] then [] else [Quote(ss[0], "")] + StringTexts(ss[1..])
  }

  function VolumeTexts(vs: seq<VolumeInfo>): seq<string> {
    if vs == [] then [] else [VolumeText(vs[0])] + VolumeTexts(vs[1..])
  }

  /** The body of a reply. */
  function ReplyText(r: Reply): string {
    match r
    case ActivateResponse(err, xs) =>
      Braces([Pair("Err", Quote(err, "")),
              Pair("Implements", if xs.None? then "null" else Brackets(StringTexts(xs.value)))])
    case ErrorResponse(err) => Braces([Pair("Err", Quote(err, ""))])
    case ListResponse(vs, err) =>
      Braces([Pair("Volumes", if vs.None? then "null" else Brackets(VolumeTexts(vs.value))),
              Pair("Err", Quote(err, ""))])
    case MountResponse(err, mountpoint) =>
      Braces([Pair("Err", Quote(err, "")), Pair("Mountpoint", Quote(mountpoint, ""))])
    case PathResponse(err, mountpoint) =>
      Braces([Pair("Err", Quote(err, "")), Pair("Mountpoint", Quote(mountpoint, ""))])
    case GetResponse(v, err) => Braces([Pair("Volume", VolumeText(v)), Pair("Err", Quote(err, ""))])
    case CapabilitiesResponse(scope) => Braces([Pair("Capabilities", Braces([Pair("Scope", Quote(scope, ""))]))])
  }

  lemma VolumeOnWire(v: VolumeInfo)
    ensures Print(EncodeValue(VOLUME_INFO, PackVolume(v))) == VolumeText(v)
  {
    var m, n, o := Member("Name", Str(v.name)), Member("Mountpoint", Str(v.mountpoint)),
      Member("MountCount", Number(PrintInt(v.mountCount)));
    var fs, vs := VOLUME_INFO.fields, PackVolume(v).values;
    EncodeField(fs, vs, 0);
    EncodeField(fs, vs, 1);
    EncodeField(fs, vs, 2);
    assert EncodeValue(VOLUME_INFO, PackVolume(v)).members == [m, n, o];
    StructText([m, n, o]);
    ThreePairs(m, n, o);
    StringText(v.name);
    StringText(v.mountpoint);
    NumberText(v.mountCount);
  }

  lemma {:induction false} StringsOnWire(ss: seq<string>, js: seq<Json>)
    requires |js| == |ss| && forall i :: 0 <= i < |ss| ==> js[i] == Str(ss[i])
    ensures ElemTexts(js) == StringTexts(ss)
  {
    if ss != [] {
      StringText(ss[0]);
      StringsOnWire(ss[1..], js[1..]);
    }
  }

  lemma {:induction false} VolumesOnWire(vs: seq<VolumeInfo>, js: seq<Json>)
    requires |js| == |vs| && forall i :: 0 <= i < |vs| ==> js[i] == EncodeValue(VOLUME_INFO, PackVolume(vs[i]))
    ensures ElemTexts(js) == VolumeTexts(vs)
  {
    if vs != [] {
      VolumeOnWire(vs[0]);
      VolumesOnWire(vs[1..], js[1..]);
    }
  }

  lemma StringListText(xs: Option<seq<string>>)
    ensures var g := if xs.None? then GNil else GSlice(PackStrings(xs.value), []);
            Fits(SliceT(StringT), g) &&
            Print(EncodeValue(SliceT(StringT), g)) == if xs.None? then "null" else Brackets(StringTexts(xs.value))
  {
    WordTexts();
    if xs.Some? {
      var js := EncodeValue(SliceT(StringT), GSlice(PackStrings(xs.value), [])).elems;
      ArrayText(js);
      forall i | 0 <= i < |js| ensures js[i] == Str(xs.value[i]) {
        assert js[i] == EncodeValue(StringT, PackStrings(xs.value)[i]);
      }
      StringsOnWire(xs.value, js);
    }
  }

  lemma VolumeListText(vs: Option<seq<VolumeInfo>>)
    ensures var g := if vs.None? then GNil else GSlice(PackVolumes(vs.value), []);
            Fits(SliceT(VOLUME_INFO), g) &&
            Print(EncodeValue(SliceT(VOLUME_INFO), g)) == if vs.None? then "null" else Brackets(VolumeTexts(vs.value))
  {
    WordTexts();
    if vs.Some? {
      var js := EncodeValue(SliceT(VOLUME_INFO), GSlice(PackVolumes(vs.value), [])).elems;
      ArrayText(js);
      VolumesOnWire(vs.value, js);
    }
  }

  /** A struct of two fields, as text. */
  lemma TwoFieldsText(f: Field, v: Go, g: Field, w: Go, x: string, y: string)
    requires Fits(f.ty, v) && Fits(g.ty, w) && Fits(StructT([f, g]), GStruct([v, w]))
    requires PlainText(f.name) && PlainText(g.name)
    requires Print(EncodeValue(f.ty, v)) == x && Print(EncodeValue(g.ty, w)) == y
    ensures Print(EncodeValue(StructT([f, g]), GStruct([v, w]))) == Braces([Pair(f.name, x), Pair(g.name, y)])
  {
    EncodeTwo(f, v, g, w);
    var m, n := Member(f.name, EncodeValue(f.ty, v)), Member(g.name, EncodeValue(g.ty, w));
    StructText([m, n]);
    TwoPairs(m, n);
  }

  lemma OneFieldText(f: Field, v: Go, x: string)
    requires Fits(f.ty, v) && Fits(StructT([f]), GStruct([v]))
    requires PlainText(f.name) && Print(EncodeValue(f.ty, v)) == x
    ensures Print(EncodeValue(StructT([f]), GStruct([v]))) == Braces([Pair(f.name, x)])
  {
    EncodeOne(f, v);
    var m := Member(f.name, EncodeValue(f.ty, v));
    StructText([m]);
    OnePair(m);
  }

  lemma PathLikeText(err: string, mountpoint: string)
    ensures var t := StructT([Field("Err", StringT), Field("Mountpoint", StringT)]);
            var g := GStruct([GString(err), GString(mountpoint)]);
            Fits(t, g) &&
            Print(EncodeValue(t, g)) == Braces([Pair("Err", Quote(err, "")), Pair("Mountpoint", Quote(mountpoint, ""))])
  {
    StringText(err);
    StringText(mountpoint);
    TwoFieldsText(Field("Err", StringT), GString(err), Field("Mountpoint", StringT), GString(mountpoint),
      Quote(err, ""), Quote(mountpoint, ""));
  }

  lemma ActivateOnWire(e: string, xs: Option<seq<string>>)
    ensures MarshalReply(ActivateResponse(e, xs)) == Encode(ReplyText(ActivateResponse(e, xs)))
  {
    StringText(e);
    StringListText(xs);
    var g := if xs.None? then GNil else GSlice(PackStrings(xs.value), []);
    var t := if xs.None? then "null" else Brackets(StringTexts(xs.value));
    TwoFieldsText(Field("Err", StringT), GString(e), Field("Implements", SliceT(StringT)), g, Quote(e, ""), t);
  }

  lemma VolumesThenErr(g: Go, e: string)
    requires Fits(SliceT(VOLUME_INFO), g)
    ensures var t := StructT([Field("Volumes", SliceT(VOLUME_INFO)), Field("Err", StringT)]);
            var v := GStruct([g, GString(e)]);
            Fits(t, v) &&
            Print(EncodeValue(t, v)) ==
            Braces([Pair("Volumes", Print(EncodeValue(SliceT(VOLUME_INFO), g))), Pair("Err", Quote(e, ""))])
  {
    StringText(e);
    TwoFieldsText(Field("Volumes", SliceT(VOLUME_INFO)), g, Field("Err", StringT), GString(e),
      Print(EncodeValue(SliceT(VOLUME_INFO), g)), Quote(e, ""));
  }

  lemma MarshalText(r: Reply, g: Go)
    requires PackReply(r) == g
    ensures MarshalReply(r) == Encode(Print(EncodeValue(ReplyType(r), g)))
  {
  }

  lemma ListOnWire(vs: Option<seq<VolumeInfo>>, e: string)
    ensures MarshalReply(ListResponse(vs, e)) == Encode(ReplyText(ListResponse(vs, e)))
  {
    StringText(e);
    VolumeListText(vs);
    var g := if vs.None? then GNil else GSlice(PackVolumes(vs.value), []);
    VolumesThenErr(g, e);
    MarshalText(ListResponse(vs, e), GStruct([g, GString(e)]));
  }

  lemma VolumeThenErr(g: Go, e: string)
    requires Fits(VOLUME_INFO, g)
    ensures var t := StructT([Field("Volume", VOLUME_INFO), Field("Err", StringT)]);
            var v := GStruct([g, GString(e)]);
            Fits(t, v) &&
            Print(EncodeValue(t, v)) ==
            Braces([Pair("Volume", Print(EncodeValue(VOLUME_INFO, g))), Pair("Err", Quote(e, ""))])
  {
    StringText(e);
    TwoFieldsText(Field("Volume", VOLUME_INFO), g, Field("Err", StringT), GString(e),
      Print(EncodeValue(VOLUME_INFO, g)), Quote(e, ""));
  }

  lemma GetOnWire(v: VolumeInfo, e: string)
    ensures MarshalReply(GetResponse(v, e)) == Encode(ReplyText(GetResponse(v, e)))
  {
    VolumeOnWire(v);
    VolumeThenErr(PackVolume(v), e);
    MarshalText(GetResponse(v, e), GStruct([PackVolume(v), GString(e)]));
  }

  lemma ScopeText(scope: string)
    ensures var g := GStruct([GString(scope)]);
            Fits(CAPABILITY_INFO, g) &&
            Print(EncodeValue(CAPABILITY_INFO, g)) == Braces([Pair("Scope", Quote(scope, ""))])
  {
    StringText(scope);
    OneFieldText(Field("Scope", StringT), GString(scope), Quote(scope, ""));
  }

  lemma CapabilitiesOnWire(scope: string)
    ensures MarshalReply(CapabilitiesResponse(scope)) == Encode(ReplyText(CapabilitiesResponse(scope)))
  {
    StringText(scope);
    var info := GStruct([GString(scope)]);
    ScopeText(scope);
    OneFieldText(Field("Capabilities", CAPABILITY_INFO), info, Braces([Pair("Scope", Quote(scope, ""))]));
    MarshalText(CapabilitiesResponse(scope), GStruct([info]));
  }

  lemma ErrorOnWire(e: string)
    ensures MarshalReply(ErrorResponse(e)) == Encode(ReplyText(ErrorResponse(e)))
  {
    StringText(e);
    OneFieldText(Field("Err", StringT), GString(e), Quote(e, ""));
  }

  lemma ReplyOnWire(r: Reply)
    ensures MarshalReply(r) == Encode(ReplyText(r))
  {
    match r {
      case ActivateResponse(e, xs) => ActivateOnWire(e, xs);
      case ErrorResponse(e) => ErrorOnWire(e);
      case ListResponse(vs, e) => ListOnWire(vs, e);
      case MountResponse(e, m) => PathLikeText(e, m);
      case PathResponse(e, m) => PathLikeText(e, m);
      case GetResponse(v, e) => GetOnWire(v, e);
      case CapabilitiesResponse(scope) => CapabilitiesOnWire(scope);
    }
  }

  // ---------- Configurations ----------

  function BoolText(b: bool): string {
    if b then "true" else "false"
  }

  function TLSJson(t: TLSConfig): string {
    Braces([Pair("InsecureSkipVerify", BoolText(t.insecureSkipVerify)), Pair("CAFile", Quote(t.caFile, "")),
            Pair("CertFile", Quote(t.certFile, "")), Pair("KeyFile", Quote(t.keyFile, ""))])
  }

  lemma StringValue(s: string)
    ensures Print(EncodeValue(StringT, GString(s))) == Quote(s, "")
  {
    StringText(s);
  }

  lemma BoolValue(b: bool)
    ensures Print(EncodeValue(BoolT, GBool(b))) == BoolText(b)
  {
    WordTexts();
  }

  predicate PlainFields(fs: seq<Field>) {
    forall i :: 0 <= i < |fs| ==> PlainText(fs[i].name)
  }

  /** A struct of four fields, as text. */
  lemma FourFieldsText(fs: seq<Field>, vs: seq<Go>, w: string, x: string, y: string, z: string)
    requires |fs| == 4 && Fits(StructT(fs), GStruct(vs)) && PlainFields(fs)
    requires Fits(fs[0].ty, vs[0]) && Print(EncodeValue(fs[0].ty, vs[0])) == w
    requires Fits(fs[1].ty, vs[1]) && Print(EncodeValue(fs[1].ty, vs[1])) == x
    requires Fits(fs[2].ty, vs[2]) && Print(EncodeValue(fs[2].ty, vs[2])) == y
    requires Fits(fs[3].ty, vs[3]) && Print(EncodeValue(fs[3].ty, vs[3])) == z
    ensures Print(EncodeValue(StructT(fs), GStruct(vs))) ==
            Braces([Pair(fs[0].name, w), Pair(fs[1].name, x), Pair(fs[2].name, y), Pair(fs[3].name, z)])
  {
    EncodeField(fs, vs, 0);
    EncodeField(fs, vs, 1);
    EncodeField(fs, vs, 2);
    EncodeField(fs, vs, 3);
    var ms := EncodeValue(StructT(fs), GStruct(vs)).members;
    assert ms == [ms[0], ms[1], ms[2], ms[3]];
    StructText(ms);
    FourPairs(ms[0], ms[1], ms[2], ms[3]);
  }

  lemma TLSFieldsArePlain()
    ensures PlainFields(TLS_CONFIG.fields)
  {
  }

  lemma TLSOnWire(t: TLSConfig)
    ensures Print(EncodeValue(TLS_CONFIG, PackTLS(t))) == TLSJson(t)
  {
    TLSFieldsArePlain();
    BoolValue(t.insecureSkipVerify);
    StringValue(t.caFile);
    StringValue(t.certFile);
    StringValue(t.keyFile);
    FourFieldsText(TLS_CONFIG.fields, PackTLS(t).values,
      BoolText(t.insecureSkipVerify), Quote(t.caFile, ""), Quote(t.certFile, ""), Quote(t.keyFile, ""));
  }
}
