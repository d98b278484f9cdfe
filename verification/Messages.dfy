/** The requests, replies, configuration records and routes of resources.go, and their JSON shapes. */
module Messages {
  import opened Outcomes
  import Utf8
  import opened JsonText
  import opened Decimal
  import opened GoJson
  import opened GoJsonLaws
  import opened GoJsonSpec

  type GoInt = n: int | MIN_INT <= n <= MAX_INT

  // ---------- Operations and routes ----------

  datatype Op = ActivateOp | CreateOp | GetOp | ListOp | MountOp | PathOp | RemoveOp | UnmountOp | CapabilitiesOp

  datatype Route = Route(path: string, verb: string, name: string)

  const ROUTES: seq<Route> := [
    Route("/Plugin.Activate", "POST", "activate"),
    Route("/VolumeDriver.Create", "POST", "create"),
    Route("/VolumeDriver.Get", "POST", "get"),
    Route("/VolumeDriver.List", "POST", "list"),
    Route("/VolumeDriver.Mount", "POST", "mount"),
    Route("/VolumeDriver.Path", "POST", "path"),
    Route("/VolumeDriver.Remove", "POST", "remove"),
    Route("/VolumeDriver.Unmount", "POST", "unmount"),
    Route("/VolumeDriver.Capabilities", "POST", "capabilities")
  ]

  const OPS: seq<Op> := [
    ActivateOp, CreateOp, GetOp, ListOp, MountOp, PathOp, RemoveOp, UnmountOp, CapabilitiesOp]

  function OpIndex(op: Op): (k: nat)
    ensures k < 9 && OPS[k] == op
  {
    match op
    case ActivateOp => 0
    case CreateOp => 1
    case GetOp => 2
    case ListOp => 3
    case MountOp => 4
    case PathOp => 5
    case RemoveOp => 6
    case UnmountOp => 7
    case CapabilitiesOp => 8
  }

  /** The route name a client method asks for, and under which NewHandler files the handler. */
  function RouteName(op: Op): string {
    match op
    case ActivateOp => "activate"
    case CreateOp => "create"
    case GetOp => "get"
    case ListOp => "list"
    case MountOp => "mount"
    case PathOp => "path"
    case RemoveOp => "remove"
    case UnmountOp => "unmount"
    case CapabilitiesOp => "capabilities"
  }

  // ---------- Requests ----------

  /** One call of the Driver interface. Opts is nil or the entries of the map. */
  datatype Call =
    | Activate
    | Create(name: string, opts: Option<seq<Member>>)
    | Get(name: string)
    | List
    | Mount(name: string)
    | Path(name: string)
    | Remove(name: string)
    | Unmount(name: string)
    | Capabilities
  {
    function Op(): Op {
      match this
      case Activate => ActivateOp
      case Create(_, _) => CreateOp
      case Get(_) => GetOp
      case List => ListOp
      case Mount(_) => MountOp
      case Path(_) => PathOp
      case Remove(_) => RemoveOp
      case Unmount(_) => UnmountOp
      case Capabilities => CapabilitiesOp
    }
  }

  predicate HasBody(op: Op) {
    op !in {ActivateOp, ListOp, CapabilitiesOp}
  }

  const NAME_REQUEST := StructT([Field("Name", StringT)])
  const CREATE_REQUEST := StructT([Field("Name", StringT), Field("Opts", MapT)])

  function RequestType(op: Op): Type {
    if op.CreateOp? then CREATE_REQUEST else NAME_REQUEST
  }

  function PackCall(c: Call): (g: Go)
    requires HasBody(c.Op())
    ensures Fits(RequestType(c.Op()), g)
  {
    if c.Create? then GStruct([GString(c.name), if c.opts.None? then GNil else GMap(c.opts.value)])
    else GStruct([GString(c.name)])
  }

  function UnpackCall(op: Op, g: Go): (c: Call)
    requires HasBody(op) && Fits(RequestType(op), g)
    ensures c.Op() == op
  {
    assert g.GStruct? && Fits(StringT, g.values[0]) && (op.CreateOp? ==> Fits(MapT, g.values[1]));
    var name := g.values[0].s;
    match op
    case CreateOp => Create(name, if g.values[1].GNil? then None else Some(g.values[1].entries))
    case GetOp => Get(name)
    case MountOp => Mount(name)
    case PathOp => Path(name)
    case RemoveOp => Remove(name)
    case UnmountOp => Unmount(name)
  }

  // ---------- Replies ----------

  datatype VolumeInfo = VolumeInfo(name: string, mountpoint: string, mountCount: GoInt)

  /** A slice that is None is the nil slice, which JSON tells apart from an empty one. */
  datatype Reply =
    | ActivateResponse(err: string, implements: Option<seq<string>>)
    | ErrorResponse(err: string)
    | ListResponse(volumes: Option<seq<VolumeInfo>>, err: string)
    | MountResponse(err: string, mountpoint: string)
    | PathResponse(err: string, mountpoint: string)
    | GetResponse(volume: VolumeInfo, err: string)
    | CapabilitiesResponse(scope: string)
  {
    predicate HasErr() {
      !CapabilitiesResponse?
    }

    function Err(): string {
      if HasErr() then err else ""
    }
  }

  const NO_VOLUME := VolumeInfo("", "", 0)

  /** The reply of an operation that carries nothing but an error text. */
  function Failure(op: Op, err: string): Reply {
    match op
    case ActivateOp => ActivateResponse(err, None)
    case ListOp => ListResponse(None, err)
    case MountOp => MountResponse(err, "")
    case PathOp => PathResponse(err, "")
    case GetOp => GetResponse(NO_VOLUME, err)
    case CapabilitiesOp => CapabilitiesResponse("")
    case _ => ErrorResponse(err)
  }

  predicate SameShape(a: Reply, b: Reply) {
    match a
    case ActivateResponse(_, _) => b.ActivateResponse?
    case ErrorResponse(_) => b.ErrorResponse?
    case ListResponse(_, _) => b.ListResponse?
    case MountResponse(_, _) => b.MountResponse?
    case PathResponse(_, _) => b.PathResponse?
    case GetResponse(_, _) => b.GetResponse?
    case CapabilitiesResponse(_) => b.CapabilitiesResponse?
  }

  /** The reply has the Go type that the operation returns. */
  predicate Answers(op: Op, r: Reply) {
    match op
    case ActivateOp => r.ActivateResponse?
    case ListOp => r.ListResponse?
    case MountOp => r.MountResponse?
    case PathOp => r.PathResponse?
    case GetOp => r.GetResponse?
    case CapabilitiesOp => r.CapabilitiesResponse?
    case CreateOp => r.ErrorResponse?
    case RemoveOp => r.ErrorResponse?
    case UnmountOp => r.ErrorResponse?
  }

  /** Err says why, and every other field has its zero value. CapabilitiesResponse has no Err to say it. */
  predicate Bare(r: Reply, why: string) {
    && (r.HasErr() ==> r.err == why)
    && match r
       case ActivateResponse(_, implements) => implements.None?
       case ErrorResponse(_) => true
       case ListResponse(volumes, _) => volumes.None?
       case MountResponse(_, mountpoint) => mountpoint == ""
       case PathResponse(_, mountpoint) => mountpoint == ""
       case GetResponse(v, _) => v.name == "" && v.mountpoint == "" && v.mountCount == 0
       case CapabilitiesResponse(scope) => scope == ""
  }

  /** A reply of the operation's own type that says nothing but why it failed. */
  predicate FailsWith(op: Op, r: Reply, why: string) {
    Answers(op, r) && Bare(r, why)
  }

  lemma ShapeAnswers(op: Op, r: Reply)
    ensures SameShape(Failure(op, ""), r) <==> Answers(op, r)
  {
  }

  lemma FailureFails(op: Op, why: string)
    ensures FailsWith(op, Failure(op, why), why)
  {
  }

  lemma FailsIsFailure(op: Op, r: Reply, why: string)
    requires FailsWith(op, r, why)
    ensures r == Failure(op, why)
  {
  }

  const ERR := Field("Err", StringT)
  const VOLUME_INFO := StructT([Field("Name", StringT), Field("Mountpoint", StringT), Field("MountCount", IntT)])
  const CAPABILITY_INFO := StructT([Field("Scope", StringT)])

  function ReplyFields(like: Reply): seq<Field> {
    match like
    case ActivateResponse(_, _) => [ERR, Field("Implements", SliceT(StringT))]
    case ErrorResponse(_) => [ERR]
    case ListResponse(_, _) => [Field("Volumes", SliceT(VOLUME_INFO)), ERR]
    case MountResponse(_, _) => [ERR, Field("Mountpoint", StringT)]
    case PathResponse(_, _) => [ERR, Field("Mountpoint", StringT)]
    case GetResponse(_, _) => [Field("Volume", VOLUME_INFO), ERR]
    case CapabilitiesResponse(_) => [Field("Capabilities", CAPABILITY_INFO)]
  }

  function ReplyType(like: Reply): Type {
    StructT(ReplyFields(like))
  }

  function PackVolume(v: VolumeInfo): (g: Go)
    ensures Fits(VOLUME_INFO, g)
  {
    GStruct([GString(v.name), GString(v.mountpoint), GInt(v.mountCount)])
  }

  function UnpackVolume(g: Go): VolumeInfo
    requires Fits(VOLUME_INFO, g)
  {
    assert Fits(StringT, g.values[0]) && Fits(StringT, g.values[1]) && Fits(IntT, g.values[2]);
    VolumeInfo(g.values[0].s, g.values[1].s, g.values[2].n)
  }

  function PackStrings(ss: seq<string>): (gs: seq<Go>)
    ensures |gs| == |ss| && forall i :: 0 <= i < |gs| ==> gs[i] == GString(ss[i])
  {
    seq(|ss|, i requires 0 <= i < |ss| => GString(ss[i]))
  }

  function PackVolumes(vs: seq<VolumeInfo>): (gs: seq<Go>)
    ensures |gs| == |vs| && forall i :: 0 <= i < |gs| ==> gs[i] == PackVolume(vs[i])
  {
    seq(|vs|, i requires 0 <= i < |vs| => PackVolume(vs[i]))
  }

  function PackReply(r: Reply): (g: Go)
    ensures Fits(ReplyType(r), g)
  {
    match r
    case ActivateResponse(err, xs) =>
      GStruct([GString(err), if xs.None? then GNil else GSlice(PackStrings(xs.value), [])])
    case ErrorResponse(err) => GStruct([GString(err)])
    case ListResponse(vs, err) =>
      GStruct([if vs.None? then GNil else GSlice(PackVolumes(vs.value), []), GString(err)])
    case MountResponse(err, m) => GStruct([GString(err), GString(m)])
    case PathResponse(err, m) => GStruct([GString(err), GString(m)])
    case GetResponse(v, err) => GStruct([PackVolume(v), GString(err)])
    case CapabilitiesResponse(s) => GStruct([GStruct([GString(s)])])
  }

  function UnpackString(g: Go): string
    requires Fits(StringT, g)
  {
    g.s
  }

  function UnpackStrings(g: Go): Option<seq<string>>
    requires Fits(SliceT(StringT), g)
  {
    if g.GNil? then None else Some(seq(|g.elems|, i requires 0 <= i < |g.elems| => UnpackString(g.elems[i])))
  }

  function UnpackVolumes(g: Go): Option<seq<VolumeInfo>>
    requires Fits(SliceT(VOLUME_INFO), g)
  {
    if g.GNil? then None else Some(seq(|g.elems|, i requires 0 <= i < |g.elems| => UnpackVolume(g.elems[i])))
  }

  /** A decoded struct as the reply record of the same shape as like. */
  function UnpackReply(like: Reply, g: Go): (r: Reply)
    requires Fits(ReplyType(like), g)
    ensures SameShape(like, r)
  {
    var fs := ReplyFields(like);
    var vs := g.values;
    assert forall i :: 0 <= i < |fs| ==> Fits(fs[i].ty, vs[i]);
    match like
    case ActivateResponse(_, _) => ActivateResponse(vs[0].s, UnpackStrings(vs[1]))
    case ErrorResponse(_) => ErrorResponse(vs[0].s)
    case ListResponse(_, _) => ListResponse(UnpackVolumes(vs[0]), vs[1].s)
    case MountResponse(_, _) => MountResponse(vs[0].s, vs[1].s)
    case PathResponse(_, _) => PathResponse(vs[0].s, vs[1].s)
    case GetResponse(_, _) => GetResponse(UnpackVolume(vs[0]), vs[1].s)
    case CapabilitiesResponse(_) =>
      assert Fits(StringT, vs[0].values[0]);
      CapabilitiesResponse(vs[0].values[0].s)
  }

  function MarshalReply(r: Reply): Utf8.Bytes {
    Marshal(ReplyType(r), PackReply(r))
  }

  function UnmarshalReply(canon: Canon, like: Reply, b: Utf8.Bytes): (r: Option<Reply>)
    ensures r.Some? ==> SameShape(like, r.value)
  {
    match Unmarshal(canon, ReplyType(like), b)
    case None => None
    case Some(g) => Some(UnpackReply(like, g))
  }

  // ---------- Configuration records ----------

  datatype TLSConfig = TLSConfig(insecureSkipVerify: bool, caFile: string, certFile: string, keyFile: string)

  const TLS_CONFIG := StructT([
    Field("InsecureSkipVerify", BoolT), Field("CAFile", StringT), Field("CertFile", StringT),
    Field("KeyFile", StringT)])

  function PackTLS(t: TLSConfig): (g: Go)
    ensures Fits(TLS_CONFIG, g)
  {
    GStruct([GBool(t.insecureSkipVerify), GString(t.caFile), GString(t.certFile), GString(t.keyFile)])
  }

  function UnpackTLS(g: Go): TLSConfig
    requires Fits(TLS_CONFIG, g)
  {
    var vs := g.values;
    assert Fits(BoolT, vs[0]) && Fits(StringT, vs[1]) && Fits(StringT, vs[2]) && Fits(StringT, vs[3]);
    TLSConfig(vs[0].b, vs[1].s, vs[2].s, vs[3].s)
  }

  // ---------- Laws ----------

  lemma TwoFields(f: Field, g: Field, i: nat)
    requires |f.name| != |g.name| || (i < |f.name| && FoldChar(f.name[i]) != FoldChar(g.name[i]))
    ensures Distinct([f, g])
  {
  }

  lemma GoodVolume()
    ensures GoodType(VOLUME_INFO)
  {
    assert FoldChar("Mountpoint"[5]) != FoldChar("MountCount"[5]);
  }

  lemma GoodTLS()
    ensures GoodType(TLS_CONFIG)
  {
  }

  lemma GoodRequest(op: Op)
    ensures GoodType(RequestType(op))
  {
    TwoFields(Field("Name", StringT), Field("Opts", MapT), 0);
  }

  lemma GoodReply(like: Reply)
    ensures GoodType(ReplyType(like))
  {
    GoodVolume();
    var fs := ReplyFields(like);
    if |fs| == 2 {
      TwoFields(fs[0], fs[1], 0);
      assert fs == [fs[0], fs[1]];
    }
  }

  lemma StringsPack(canon: Canon, ss: seq<string>)
    ensures var g := GSlice(PackStrings(ss), []); Carried(canon, g) && UnpackStrings(g) == Some(ss)
  {
    assert UnpackStrings(GSlice(PackStrings(ss), [])).value == ss;
  }

  lemma VolumesPack(canon: Canon, vs: seq<VolumeInfo>)
    ensures var g := GSlice(PackVolumes(vs), []); Carried(canon, g) && UnpackVolumes(g) == Some(vs)
  {
    var g := GSlice(PackVolumes(vs), []);
    forall i | 0 <= i < |vs| ensures Carried(canon, g.elems[i]) && UnpackVolume(g.elems[i]) == vs[i] {
    }
    assert UnpackVolumes(g).value == vs;
  }

  lemma ReplyPacks(canon: Canon, like: Reply, r: Reply)
    requires SameShape(like, r)
    ensures ReplyType(like) == ReplyType(r)
    ensures Carried(canon, PackReply(r))
    ensures UnpackReply(like, PackReply(r)) == r
  {
    if r.ActivateResponse? && r.implements.Some? {
      StringsPack(canon, r.implements.value);
    } else if r.ListResponse? && r.volumes.Some? {
      VolumesPack(canon, r.volumes.value);
    }
  }

  /** Every reply record comes back from its JSON. */
  lemma ReplyRoundTrip(canon: Canon, like: Reply, r: Reply)
    requires SameShape(like, r)
    ensures UnmarshalReply(canon, like, MarshalReply(r)) == Some(r)
  {
    ReplyPacks(canon, like, r);
    GoodReply(r);
    UnmarshalMarshal(canon, ReplyType(r), PackReply(r));
  }

  function ErrIndex(like: Reply): (k: nat)
    requires like.HasErr()
    ensures k < |ReplyFields(like)| && ReplyFields(like)[k] == ERR
  {
    if like.ListResponse? || like.GetResponse? then 1 else 0
  }

  lemma ErrUnpacked(like: Reply, g: Go)
    requires like.HasErr() && Fits(ReplyType(like), g)
    ensures |g.values| > ErrIndex(like) && Fits(StringT, g.values[ErrIndex(like)])
    ensures UnpackReply(like, g).HasErr() && UnpackReply(like, g).err == g.values[ErrIndex(like)].s
  {
    assert Fits(ReplyFields(like)[ErrIndex(like)].ty, g.values[ErrIndex(like)]);
  }

  /** What a JSON value decodes to, seen through Err alone. */
  lemma ErrProjected(canon: Canon, like: Reply, j: Json)
    requires like.HasErr() && DecodeValue(canon, ReplyType(like), Zero(ReplyType(like)), j).Some?
    ensures var g := DecodeValue(canon, ReplyType(like), Zero(ReplyType(like)), j).value;
            && Fits(ReplyType(like), g) && |g.values| > ErrIndex(like)
            && DecodeValue(canon, StructT([ERR]), Zero(StructT([ERR])), j) == Some(GStruct([g.values[ErrIndex(like)]]))
  {
    GoodReply(like);
    var fs := ReplyFields(like);
    var k := ErrIndex(like);
    assert Zeros(fs)[k] == GString("") && Zeros([ERR]) == [GString("")];
    if j.Object? {
      ProjectFields(canon, fs, Zeros(fs), k, j.members);
    }
  }

  /** On any bytes whatever, the error view and the typed view of a reply see the same Err. */
  lemma DecodingsAgree(canon: Canon, like: Reply, b: Utf8.Bytes)
    requires like.HasErr() && UnmarshalReply(canon, like, b).Some?
    ensures UnmarshalReply(canon, ErrorResponse(""), b) ==
            Some(ErrorResponse(UnmarshalReply(canon, like, b).value.err))
  {
    var j := Parse(Utf8.Decode(b)).value;
    ErrProjected(canon, like, j);
    ErrUnpacked(like, DecodeValue(canon, ReplyType(like), Zero(ReplyType(like)), j).value);
  }

  /** After any members that decode, one more: under any case variant of the key a string replaces Err, null
      leaves it, and anything else is refused; under any other key it does not matter what the value is. */
  lemma LastErrWins(canon: Canon, err: string, ms: seq<Member>, m: Member)
    requires DecodeFields(canon, [ERR], [GString(err)], ms).Some?
    ensures var before := DecodeFields(canon, [ERR], [GString(err)], ms);
            DecodeFields(canon, [ERR], [GString(err)], ms + [m]) ==
            if !SameName("Err", m.key) || m.value.Null? then before
            else if m.value.Str? then Some([GString(m.value.s)])
            else None
  {
    DecodeJoin(canon, [ERR], [GString(err)], ms, [m]);
    var mid := DecodeFields(canon, [ERR], [GString(err)], ms).value;
    assert Fits(StringT, mid[0]);
    assert FieldIndex([ERR], m.key) == if SameName(ERR.name, m.key) then 0 else 1;
    var v := DecodeValue(canon, StringT, mid[0], m.value);
    assert v.Some? ==> mid[0 := v.value] == [v.value];
    assert mid == [mid[0]] && [m][1..] == [];
  }

  lemma CapabilitiesHideNoErr(canon: Canon, v: Json)
    ensures DecodeValue(canon, ReplyType(ErrorResponse("")), Zero(ReplyType(ErrorResponse(""))),
                        Object([Member("Capabilities", v)])) == Some(GStruct([GString("")]))
  {
    var m := Member("Capabilities", v);
    assert !SameName(ERR.name, m.key);
    assert FieldIndex([ERR], m.key) == 1;
    assert Zeros([ERR]) == [GString("")];
    assert DecodeFields(canon, [ERR], [GString("")], [m]) == DecodeFields(canon, [ERR], [GString("")], []);
  }

  /** Read as an ErrorResponse, an encoded reply shows its own Err, or none if it has none. */
  lemma ErrorView(canon: Canon, r: Reply)
    ensures UnmarshalReply(canon, ErrorResponse(""), MarshalReply(r)) == Some(ErrorResponse(r.Err()))
  {
    if r.HasErr() {
      ReplyRoundTrip(canon, r, r);
      DecodingsAgree(canon, r, MarshalReply(r));
    } else {
      var t := ReplyType(r);
      var j := EncodeValue(t, PackReply(r));
      ReplyPacks(canon, r, r);
      EncodeIsPrintable(canon, t, PackReply(r));
      UnmarshalPrinted(canon, ReplyType(ErrorResponse("")), j);
      EncodeOne(Field("Capabilities", CAPABILITY_INFO), GStruct([GString(r.scope)]));
      CapabilitiesHideNoErr(canon, EncodeValue(CAPABILITY_INFO, GStruct([GString(r.scope)])));
    }
  }

  lemma BareDecodes(canon: Canon, r: Reply, why: string)
    requires Bare(r, why) && r.HasErr()
    ensures var t := ReplyType(r);
            DecodeValue(canon, t, Zero(t), Object([Member("Err", Str(why))])) == Some(PackReply(r))
  {
    var fs, ms := ReplyFields(r), [Member("Err", Str(why))];
    var k := ErrIndex(r);
    GoodReply(r);
    FieldFound(fs, k);
    DecodeOneField(canon, fs, Zeros(fs), k, GString(why), ms);
    assert ms[1..] == [];
    BarePacks(r, why);
  }

  lemma NoErrDecodes(canon: Canon, why: string)
    ensures var r := CapabilitiesResponse("");
            var t := ReplyType(r);
            DecodeValue(canon, t, Zero(t), Object([Member("Err", Str(why))])) == Some(PackReply(r))
  {
    NoScope();
    assert !SameName("Capabilities", "Err");
    UnnamedKept(canon, Field("Capabilities", CAPABILITY_INFO), GStruct([GString("")]), [Member("Err", Str(why))]);
  }

  lemma NoScope()
    ensures Zero(ReplyType(CapabilitiesResponse(""))) == PackReply(CapabilitiesResponse("")) ==
            GStruct([GStruct([GString("")])])
  {
    assert Zeros(CAPABILITY_INFO.fields) == [GString("")];
    assert Zeros(ReplyFields(CapabilitiesResponse(""))) == [Zero(CAPABILITY_INFO)];
  }

  lemma BarePacks(r: Reply, why: string)
    requires r.HasErr() && Bare(r, why)
    ensures GStruct(Zeros(ReplyFields(r))[ErrIndex(r) := GString(why)]) == PackReply(r)
  {
    var fs := ReplyFields(r);
    if r.GetResponse? {
      assert Zeros(VOLUME_INFO.fields) == [GString(""), GString(""), GInt(0)];
    }
    assert Zeros(fs)[ErrIndex(r) := GString(why)] == PackReply(r).values;
  }

  /** Such a reply is the typed reading of a body with nothing in it but that Err: what it shows is what every Go
      client of the type would see of {"Err": why}. */
  lemma BareIsTyped(canon: Canon, r: Reply, why: string)
    requires Bare(r, why)
    ensures UnmarshalReply(canon, r, MarshalReply(ErrorResponse(why))) == Some(r)
  {
    EncodeOne(ERR, GString(why));
    UnmarshalPrinted(canon, ReplyType(r), Object([Member("Err", Str(why))]));
    if r.HasErr() {
      BareDecodes(canon, r, why);
    } else {
      NoErrDecodes(canon, why);
    }
    ReplyPacks(canon, r, r);
  }

  // ---------- Requests ----------

  /** json.Marshal of the request succeeds. */
  predicate Encodable(c: Call) {
    c.Create? && c.opts.Some? ==> Printable(Object(c.opts.value))
  }

  function MarshalCall(c: Call): Utf8.Bytes
    requires HasBody(c.Op())
  {
    Marshal(RequestType(c.Op()), PackCall(c))
  }

  function UnmarshalCall(canon: Canon, op: Op, b: Utf8.Bytes): (r: Option<Call>)
    requires HasBody(op)
    ensures r.Some? ==> r.value.Op() == op
  {
    match Unmarshal(canon, RequestType(op), b)
    case None => None
    case Some(g) => Some(UnpackCall(op, g))
  }

  /** The request after one trip through JSON: Opts are interpreted, everything else is kept. */
  function Interpreted(canon: Canon, c: Call): (r: Option<Call>)
    ensures r.Some? ==> r.value.Op() == c.Op()
  {
    if c.Create? && c.opts.Some? then
      match InterpretInto(canon, [], c.opts.value)
      case None => None
      case Some(ms) => Some(Create(c.name, Some(ms)))
    else Some(c)
  }

  /** A request that JSON carries unchanged. */
  ghost predicate StableCall(canon: Canon, c: Call) {
    c.Create? && c.opts.Some? ==> StableEntries(canon, c.opts.value)
  }

  /** What JSON makes of a request, entry by entry: the operation and the name stay; of the options every key arrives,
      in whatever order they were and with the last value it was given, as an interface{} holds that; and no other. */
  lemma OptsArrive(canon: Canon, c: Call, key: string)
    requires Interpreted(canon, c).Some?
    ensures var c' := Interpreted(canon, c).value;
            if c.Create? && c.opts.Some? then
              && c'.Create? && c'.name == c.name && c'.opts.Some? && Sorted(c'.opts.value)
              && (LastOf(c'.opts.value, key).Some? <==> LastOf(c.opts.value, key).Some?)
              && (LastOf(c.opts.value, key).Some? ==>
                    Holds(canon, LastOf(c.opts.value, key).value, LastOf(c'.opts.value, key).value))
            else c' == c
  {
    if c.Create? && c.opts.Some? {
      InterpretIntoLooksUp(canon, [], c.opts.value, key);
      if LastOf(c.opts.value, key).Some? {
        InterpretHolds(canon, LastOf(c.opts.value, key).value);
      }
    }
  }

  /** A request arrives unless some option has a number that no float64 holds, or no encoding. */
  lemma OptsAccepted(canon: Canon, c: Call)
    ensures Interpreted(canon, c).Some? <==>
              (c.Create? && c.opts.Some? ==>
                 forall i :: 0 <= i < |c.opts.value| ==> Holdable(canon, c.opts.value[i].value))
  {
    if c.Create? && c.opts.Some? {
      InterpretIntoAccepts(canon, [], c.opts.value);
      forall i | 0 <= i < |c.opts.value|
        ensures Interpret(canon, c.opts.value[i].value).Some? <==> Holdable(canon, c.opts.value[i].value)
      {
        InterpretAccepts(canon, c.opts.value[i].value);
      }
    }
  }

  /** The name a handler passes on is the last string in the body under the key Name, in any case of its letters. */
  lemma NameArrives(canon: Canon, op: Op, b: Utf8.Bytes, ms: seq<Member>)
    requires HasBody(op) && UnmarshalCall(canon, op, b).Some? && Parse(Utf8.Decode(b)) == Some(Object(ms))
    ensures var last := LastSetting(ms, "Name");
            NameOf(UnmarshalCall(canon, op, b).value) == if last.Some? && last.value.Str? then last.value.s else ""
  {
    var fs := if op.CreateOp? then CREATE_REQUEST.fields else NAME_REQUEST.fields;
    GoodRequest(op);
    assert RequestType(op) == StructT(fs) && Distinct(fs) && fs[0] == Field("Name", StringT);
    var vs := DecodeFields(canon, fs, Zeros(fs), ms).value;
    ProjectFields(canon, fs, Zeros(fs), 0, ms);
    StringField(canon, "Name", "", ms);
    assert Zeros(fs)[0] == GString("");
    assert DecodeFields(canon, [fs[0]], [Zeros(fs)[0]], ms) == Some([vs[0]]);
    assert [vs[0]][0] == vs[0];
  }

  function NameOf(c: Call): string
    requires HasBody(c.Op())
  {
    c.name
  }

  lemma OptsDecode(canon: Canon, name: string, opts: Json)
    ensures DecodeFields(canon, CREATE_REQUEST.fields, [GString(name), GNil], [Member("Opts", opts)]) ==
            match DecodeValue(canon, MapT, GNil, opts)
            case None => None
            case Some(m) => Some([GString(name), m])
  {
    var fs := CREATE_REQUEST.fields;
    var half, ms := [GString(name), GNil], [Member("Opts", opts)];
    GoodRequest(CreateOp);
    FieldFound(fs, 1);
    var r := DecodeValue(canon, MapT, GNil, opts);
    if r.Some? {
      DecodeOneField(canon, fs, half, 1, r.value, ms);
      assert half[1 := r.value] == [GString(name), r.value] && ms[1..] == [];
    }
  }

  lemma NameDecodes(canon: Canon, name: string, opts: Json)
    ensures var fs, m, n := CREATE_REQUEST.fields, Member("Name", Str(name)), Member("Opts", opts);
            DecodeFields(canon, fs, [GString(""), GNil], [m, n]) == DecodeFields(canon, fs, [GString(name), GNil], [n])
  {
    var f, g := Field("Name", StringT), Field("Opts", MapT);
    GoodRequest(CreateOp);
    FieldFound([f, g], 0);
    DecodeFirst(canon, f, g, GString(""), GString(name), GNil, Member("Name", Str(name)), Member("Opts", opts));
  }

  lemma CreateDecodes(canon: Canon, name: string, opts: Json)
    ensures DecodeValue(canon, CREATE_REQUEST, Zero(CREATE_REQUEST),
                        Object([Member("Name", Str(name)), Member("Opts", opts)])) ==
            match DecodeValue(canon, MapT, GNil, opts)
            case None => None
            case Some(m) => Some(GStruct([GString(name), m]))
  {
    assert Zeros(CREATE_REQUEST.fields) == [GString(""), GNil];
    NameDecodes(canon, name, opts);
    OptsDecode(canon, name, opts);
  }

  lemma EncodeCreate(name: string, opts: Option<seq<Member>>)
    ensures EncodeValue(CREATE_REQUEST, PackCall(Create(name, opts))) ==
            Object([Member("Name", Str(name)), Member("Opts", if opts.None? then Null else Object(opts.value))])
  {
    var packed := if opts.None? then GNil else GMap(opts.value);
    EncodeTwo(Field("Name", StringT), GString(name), Field("Opts", MapT), packed);
  }

  lemma CreateComesBack(canon: Canon, name: string, opts: Option<seq<Member>>)
    ensures var t, c := CREATE_REQUEST, Create(name, opts);
            (match DecodeValue(canon, t, Zero(t), EncodeValue(t, PackCall(c)))
             case None => None
             case Some(g) => Some(UnpackCall(CreateOp, g))) == Interpreted(canon, c)
  {
    EncodeCreate(name, opts);
    CreateDecodes(canon, name, if opts.None? then Null else Object(opts.value));
  }

  lemma NameComesBack(canon: Canon, c: Call)
    requires HasBody(c.Op()) && !c.Create?
    ensures var t := NAME_REQUEST; DecodeValue(canon, t, Zero(t), EncodeValue(t, PackCall(c))) == Some(PackCall(c))
    ensures UnpackCall(c.Op(), PackCall(c)) == c
  {
    GoodRequest(c.Op());
    DecodeEncode(canon, NAME_REQUEST, PackCall(c));
  }

  /** Decoding what a request encodes to, before either meets text. */
  lemma RequestDecodes(canon: Canon, c: Call)
    requires HasBody(c.Op())
    ensures var t := RequestType(c.Op());
            (match DecodeValue(canon, t, Zero(t), EncodeValue(t, PackCall(c)))
             case None => None
             case Some(g) => Some(UnpackCall(c.Op(), g))) == Interpreted(canon, c)
  {
    if c.Create? {
      CreateComesBack(canon, c.name, c.opts);
    } else {
      NameComesBack(canon, c);
    }
  }

  lemma RequestIsPrintable(canon: Canon, c: Call)
    requires HasBody(c.Op()) && Encodable(c)
    ensures Printable(EncodeValue(RequestType(c.Op()), PackCall(c)))
  {
    if c.Create? {
      EncodeCreate(c.name, c.opts);
    } else {
      EncodeIsPrintable(canon, NAME_REQUEST, PackCall(c));
    }
  }

  /** The server decodes the request that was sent, its Opts interpreted. */
  lemma CallTrip(canon: Canon, c: Call)
    requires HasBody(c.Op()) && Encodable(c)
    ensures UnmarshalCall(canon, c.Op(), MarshalCall(c)) == Interpreted(canon, c)
  {
    var t := RequestType(c.Op());
    RequestIsPrintable(canon, c);
    UnmarshalMarshalled(canon, t, PackCall(c));
    RequestDecodes(canon, c);
  }

  lemma InterpretedIsStable(canon: Canon, c: Call)
    requires GoodCanon(canon) && Interpreted(canon, c).Some?
    ensures StableCall(canon, Interpreted(canon, c).value)
  {
    if c.Create? && c.opts.Some? {
      InterpretIntoGivesStable(canon, [], c.opts.value);
    }
  }

  lemma StableCallKept(canon: Canon, c: Call)
    requires StableCall(canon, c)
    ensures Encodable(c) && Interpreted(canon, c) == Some(c)
  {
    if c.Create? && c.opts.Some? {
      var ms := c.opts.value;
      InterpretIntoStable(canon, ms, 0);
      assert ms[..0] == [] && ms[0..] == ms;
      StableIsPrintable(canon, Object(ms));
    }
  }

  // ---------- Routes ----------

  lemma NamesAreUnique(a: Op, b: Op)
    requires RouteName(a) == RouteName(b)
    ensures a == b
  {
    assert "list"[0] != "path"[0] && "create"[0] != "remove"[0];
  }

  lemma RouteNamed(op: Op)
    ensures ROUTES[OpIndex(op)].name == RouteName(op) && ROUTES[OpIndex(op)].verb == "POST"
  {
  }

  /** The path at which Docker's plugin protocol has each operation. */
  function ApiPath(op: Op): string {
    match op
    case ActivateOp => "/Plugin.Activate"
    case CreateOp => "/VolumeDriver.Create"
    case RemoveOp => "/VolumeDriver.Remove"
    case MountOp => "/VolumeDriver.Mount"
    case UnmountOp => "/VolumeDriver.Unmount"
    case PathOp => "/VolumeDriver.Path"
    case GetOp => "/VolumeDriver.Get"
    case ListOp => "/VolumeDriver.List"
    case CapabilitiesOp => "/VolumeDriver.Capabilities"
  }

  lemma RoutesFollowApi(op: Op)
    ensures ROUTES[OpIndex(op)].path == ApiPath(op) && ROUTES[OpIndex(op)].verb == "POST"
    ensures |ROUTES| == 9
  {
  }

  lemma ApiPathsAreUnique(a: Op, b: Op)
    requires ApiPath(a) == ApiPath(b)
    ensures a == b
  {
    RoutesFollowApi(a);
    RoutesFollowApi(b);
    PathsAreUnique(OpIndex(a), OpIndex(b));
  }

  /** The operation that a request is for: POST at the path of the operation, and nothing else. */
  ghost function OpAt(verb: string, path: string): (r: Option<Op>)
    ensures forall op :: r == Some(op) <==> verb == "POST" && path == ApiPath(op)
  {
    if op: Op :| verb == "POST" && path == ApiPath(op) then
      assert forall o :: path == ApiPath(o) ==> o == op by {
        forall o | path == ApiPath(o) ensures o == op {
          ApiPathsAreUnique(o, op);
        }
      }
      Some(op)
    else None
  }

  /** The route that a client method asks for leads to its own operation. */
  lemma RouteLeadsHome(op: Op)
    ensures var route := ROUTES[OpIndex(op)]; route.name == RouteName(op) && OpAt(route.verb, route.path) == Some(op)
  {
    RouteNamed(op);
    RoutesFollowApi(op);
  }

  /** Where in every path the operations are told apart: its length, then its first letter after the dot. */
  lemma PathsAreUnique(i: nat, j: nat)
    requires i < 9 && j < 9 && ROUTES[i].path == ROUTES[j].path
    ensures i == j
  {
    assert "/VolumeDriver.List"[14] == 'L' && "/VolumeDriver.Path"[14] == 'P';
    assert "/VolumeDriver.Create"[14] == 'C' && "/VolumeDriver.Remove"[14] == 'R';
    assert "/Plugin.Activate"[1] == 'P';
  }
}
