/**
 A driver seen through HTTP: remoteClient on one side, the handlers of
 NewHandler on the other, and between them a transport that may fail at any
 stage. Everything here is a function; module Stack runs the same steps on
 objects.
 */
module Rpc {
  import opened Outcomes
  import opened Utf8
  import opened JsonText
  import opened Decimal
  import opened GoJson
  import opened Messages
  import opened WireText

  /** What the Go library decides and this code passes on: float64 rounding, error texts and the 404 page. */
  datatype Library = Library(
    canon: Canon,
    cannotEncode: Call -> Message,
    cannotDecode: Bytes -> Message,
    notFound: Bytes)

  // ---------- Client ----------

  /** What one HttpClient.Do, together with reading its body, came to. */
  datatype Exchange =
    | NoRequest(why: Message)
    | NoResponse(why: Message)
    | Unreadable(partial: Bytes, why: Message)
    | Body(bytes: Bytes)

  /** The two results of remoteClient.do; data is None where Go's slice is nil. */
  datatype DoResult = DoResult(data: Option<Bytes>, error: Option<string>)

  function Do(lib: Library, x: Exchange): DoResult {
    match x
    case Body(b) =>
      (match UnmarshalReply(lib.canon, ErrorResponse(""), b)
       case None => DoResult(Some(b), Some(lib.cannotDecode(b)))
       case Some(e) => DoResult(Some(b), if e.err != "" then Some(e.err) else None))
    case Unreadable(partial, why) => DoResult(Some(partial), Some(why))
    case _ => DoResult(None, Some(x.why))
  }

  /** The reply a client method returns. Create drops the decoded body. */
  function Receive(lib: Library, op: Op, x: Exchange): Reply {
    var d := Do(lib, x);
    if d.error.Some? then Failure(op, d.error.value)
    else if d.data.None? then Failure(op, "Invalid response from driver.")
    else
      match UnmarshalReply(lib.canon, Failure(op, ""), d.data.value)
      case None => Failure(op, lib.cannotDecode(d.data.value))
      case Some(r) => if op.CreateOp? then ErrorResponse("") else r
  }

  // ---------- Server ----------

  /** The request body as a handler reads it. */
  datatype Incoming = Complete(bytes: Bytes) | Broken(why: Message)

  datatype Admission = Refuse(body: Reply) | Admit(call: Call)

  /** The body written when the request cannot be read. Get and Path answer with a MountResponse. */
  function ReadFailure(op: Op, why: string): Reply {
    if op in {GetOp, PathOp, MountOp} then MountResponse(why, "") else ErrorResponse(why)
  }

  /** The body written when the request cannot be decoded. Path answers with a GetResponse. */
  function DecodeFailure(op: Op, why: string): Reply {
    if op in {GetOp, PathOp} then GetResponse(NO_VOLUME, why)
    else if op.MountOp? then MountResponse(why, "")
    else ErrorResponse(why)
  }

  function Unconditional(op: Op): Call
    requires !HasBody(op)
  {
    match op
    case ActivateOp => Activate
    case ListOp => List
    case CapabilitiesOp => Capabilities
  }

  /** Whether the handler of an operation calls the driver, and with what. */
  function Handle(lib: Library, op: Op, incoming: Incoming): (a: Admission)
    ensures a.Admit? ==> a.call.Op() == op
  {
    if !HasBody(op) then Admit(Unconditional(op))
    else
      match incoming
      case Broken(why) => Refuse(ReadFailure(op, why))
      case Complete(b) =>
        match UnmarshalCall(lib.canon, op, b)
        case None => Refuse(DecodeFailure(op, lib.cannotDecode(b)))
        case Some(c) => Admit(c)
  }

  /** What a handler answers without calling the driver, letter by letter: to a body that cannot be read Get and Path
      answer in the form of Mount, to one that cannot be decoded Path answers in the form of Get. */
  function RefusalText(op: Op, read: bool, why: string): string {
    var err, mountpoint := Pair("Err", Quote(why, "")), Pair("Mountpoint", Quote("", ""));
    match op
    case MountOp => Braces([err, mountpoint])
    case GetOp => if read then Braces([Pair("Volume", NO_VOLUME_TEXT), err]) else Braces([err, mountpoint])
    case PathOp => if read then Braces([Pair("Volume", NO_VOLUME_TEXT), err]) else Braces([err, mountpoint])
    case _ => Braces([err])
  }

  const NO_VOLUME_TEXT := Braces([
    Pair("Name", Quote("", "")), Pair("Mountpoint", Quote("", "")), Pair("MountCount", PrintInt(0))])

  lemma ReadRefusalText(op: Op, why: string)
    requires HasBody(op)
    ensures MarshalReply(ReadFailure(op, why)) == Encode(RefusalText(op, false, why))
  {
    ReplyOnWire(ReadFailure(op, why));
  }

  lemma DecodeRefusalText(op: Op, why: string)
    requires HasBody(op)
    ensures MarshalReply(DecodeFailure(op, why)) == Encode(RefusalText(op, true, why))
  {
    ReplyOnWire(DecodeFailure(op, why));
  }

  lemma RefusalOnWire(lib: Library, op: Op, incoming: Incoming)
    requires Handle(lib, op, incoming).Refuse?
    ensures MarshalReply(Handle(lib, op, incoming).body) ==
            Encode(RefusalText(op, incoming.Complete?,
              if incoming.Complete? then lib.cannotDecode(incoming.bytes) else incoming.why))
  {
    if incoming.Complete? {
      DecodeRefusalText(op, lib.cannotDecode(incoming.bytes));
    } else {
      ReadRefusalText(op, incoming.why);
    }
  }

  /** When a handler does call the driver: without a body always, with one if it was read to its end and decodes. */
  lemma AdmitsExactly(lib: Library, op: Op, incoming: Incoming, c: Call)
    ensures Handle(lib, op, incoming) == Admit(c) <==>
            if op in {ActivateOp, ListOp, CapabilitiesOp} then c in {Activate, List, Capabilities} && c.Op() == op
            else incoming.Complete? && UnmarshalCall(lib.canon, op, incoming.bytes) == Some(c)
  {
    if op in {ActivateOp, ListOp, CapabilitiesOp} {
      assert Handle(lib, op, incoming) == Admit(Unconditional(op));
      assert Unconditional(op) in {Activate, List, Capabilities};
    }
  }

  // ---------- One hop ----------

  /** What was read of a body before reading failed. */
  datatype Cut = Cut(partial: Bytes, why: Message)

  /** Which stages of one hop fail, in the order they happen. */
  datatype Fate = Fate(
    request: Option<Message>,   // the request cannot be generated
    send: Option<Message>,      // it is lost before it reaches the server
    read: Option<Message>,      // the server cannot read its body
    reply: Option<Message>,     // the reply is lost
    body: Option<Cut>)          // the reply's body cannot be read to its end

  const CLEAN := Fate(None, None, None, None, None)

  datatype Journey = Stopped(reply: Reply) | Turned(body: Reply) | Reached(call: Call)

  function Payload(c: Call): Bytes {
    if HasBody(c.Op()) then MarshalCall(c) else []
  }

  /** What a client method sends: nothing for the operations without arguments, else the request's JSON. */
  lemma PayloadOnWire(c: Call)
    ensures Payload(c) == if c in {Activate, List, Capabilities} then [] else Encode(RequestText(c))
  {
    if HasBody(c.Op()) {
      RequestOnWire(c);
    }
  }

  /** The way from a client method to the driver behind the handler. */
  function Outward(lib: Library, c: Call, f: Fate): Journey {
    if !Encodable(c) then Stopped(Failure(c.Op(), lib.cannotEncode(c)))
    else if f.request.Some? then Stopped(Receive(lib, c.Op(), NoRequest(f.request.value)))
    else if f.send.Some? then Stopped(Receive(lib, c.Op(), NoResponse(f.send.value)))
    else
      match Handle(lib, c.Op(), if f.read.Some? then Broken(f.read.value) else Complete(Payload(c)))
      case Refuse(r) => Turned(r)
      case Admit(c') => Reached(c')
  }

  /** The way back, from the record the handler writes to what the client method returns. */
  function Homeward(lib: Library, op: Op, f: Fate, r: Reply): Reply {
    Receive(lib, op,
      if f.reply.Some? then NoResponse(f.reply.value)
      else if f.body.Some? then Unreadable(f.body.value.partial, f.body.value.why)
      else Body(MarshalReply(r)))
  }

  // ---------- Drivers and chains ----------

  type Driver<!S> = (S, Call) -> (S, Reply)

  /** Go's type system: every method returns its own response type. */
  ghost predicate WellTyped<S(!new)>(d: Driver<S>) {
    forall s: S, c: Call {:trigger d(s, c)} :: Answers(c.Op(), d(s, c).1)
  }

  /** The driver's next state, the caller's reply, and the calls the driver itself saw. */
  datatype Step<S> = Step(state: S, reply: Reply, log: seq<Call>)

  /** A call through one proxy per fate, outermost first, around the driver. */
  function Chain<S>(lib: Library, d: Driver<S>, fates: seq<Fate>, s: S, c: Call): Step<S>
    decreases |fates|
  {
    if fates == [] then
      Step(d(s, c).0, d(s, c).1, [c])
    else
      match Outward(lib, c, fates[0])
      case Stopped(r) => Step(s, r, [])
      case Turned(r) => Step(s, Homeward(lib, c.Op(), fates[0], r), [])
      case Reached(c') =>
        var inner := Chain(lib, d, fates[1..], s, c');
        Step(inner.state, Homeward(lib, c.Op(), fates[0], inner.reply), inner.log)
  }

  predicate AllClean(fates: seq<Fate>) {
    forall i :: 0 <= i < |fates| ==> fates[i] == CLEAN
  }

  /** The normal form of a reply: an error drops everything else. */
  function Seen(op: Op, r: Reply): Reply {
    if r.Err() != "" then Failure(op, r.Err()) else r
  }

  /** A reply that says nothing but that something failed. */
  ghost predicate IsFailure(op: Op, r: Reply) {
    exists why: Message :: FailsWith(op, r, why)
  }

  // ---------- Receiving ----------

  lemma FailureAnswers(op: Op, why: string)
    ensures Answers(op, Failure(op, why))
  {
  }

  /** A client method returns its own response type whatever the server sent. */
  lemma ReceiveAnswers(lib: Library, op: Op, x: Exchange)
    ensures Answers(op, Receive(lib, op, x))
  {
    var d := Do(lib, x);
    if d.error.Some? {
      FailureAnswers(op, d.error.value);
    } else {
      DataAfterSuccess(lib, x);
      TypedAnswers(lib, op, d.data.value);
    }
  }

  lemma TypedAnswers(lib: Library, op: Op, b: Bytes)
    ensures var typed := UnmarshalReply(lib.canon, Failure(op, ""), b);
            Answers(op, if typed.None? then Failure(op, lib.cannotDecode(b)) else typed.value)
  {
    FailureAnswers(op, lib.cannotDecode(b));
    var typed := UnmarshalReply(lib.canon, Failure(op, ""), b);
    if typed.Some? {
      ShapeAnswers(op, typed.value);
    }
  }

  /** An exchange succeeds only with a body that decodes, and nothing decodes from no bytes: the data after a
      successful do is neither nil nor empty, so the "Invalid response" branches are dead. */
  lemma DataAfterSuccess(lib: Library, x: Exchange)
    requires Do(lib, x).error.None?
    ensures x.Body? && Do(lib, x).data == Some(x.bytes) && x.bytes != []
  {
    assert UnmarshalReply(lib.canon, ErrorResponse(""), []).None?;
  }

  lemma FailureHasErr(op: Op)
    requires !op.CapabilitiesOp?
    ensures Failure(op, "").HasErr()
  {
  }

  /** When the typed decoding succeeds, do reports exactly the Err it finds. */
  lemma DoSeesErr(lib: Library, like: Reply, b: Bytes)
    requires like.HasErr() && UnmarshalReply(lib.canon, like, b).Some?
    ensures var err := UnmarshalReply(lib.canon, like, b).value.Err();
            Do(lib, Body(b)) == DoResult(Some(b), if err != "" then Some(err) else None)
  {
    DecodingsAgree(lib.canon, like, b);
  }

  /** Exactly which exchanges a client method reports as a success, and what it makes of the others. */
  lemma ReceiveExactly(lib: Library, op: Op, x: Exchange)
    requires !op.CapabilitiesOp?
    ensures var r := Receive(lib, op, x);
            var ok := x.Body? &&
                      (var t := UnmarshalReply(lib.canon, Failure(op, ""), x.bytes); t.Some? && t.value.Err() == "");
            && (r.Err() == "" <==> ok)
            && (ok ==> Some(r) == UnmarshalReply(lib.canon, Failure(op, ""), x.bytes))
            && (!ok ==> FailsWith(op, r, r.Err()))
  {
    if x.Body? && UnmarshalReply(lib.canon, Failure(op, ""), x.bytes).Some? {
      FailureHasErr(op);
      DoSeesErr(lib, Failure(op, ""), x.bytes);
      if Do(lib, x).error.None? && op.CreateOp? {
        OnlyErrorMatters(lib, op, x);
      }
    } else {
      FailuresAlike(lib, op, x);
    }
  }

  /** Capabilities has no Err of its own, so its body is decoded under two types that see different fields: it returns
      the typed decoding exactly if both succeed and the first finds no error text, and the zero value otherwise. */
  lemma ReceiveCapabilities(lib: Library, x: Exchange)
    ensures var typed := UnmarshalReply(lib.canon, CapabilitiesResponse(""), if x.Body? then x.bytes else []);
            var ok := x.Body? && typed.Some? &&
                      UnmarshalReply(lib.canon, ErrorResponse(""), x.bytes) == Some(ErrorResponse(""));
            Receive(lib, CapabilitiesOp, x) == if ok then typed.value else CapabilitiesResponse("")
  {
    if x.Body? {
      ReceiveScope(lib, x.bytes);
    }
  }

  lemma ReceiveScope(lib: Library, b: Bytes)
    ensures var typed := UnmarshalReply(lib.canon, CapabilitiesResponse(""), b);
            var ok := typed.Some? && UnmarshalReply(lib.canon, ErrorResponse(""), b) == Some(ErrorResponse(""));
            Receive(lib, CapabilitiesOp, Body(b)) == if ok then typed.value else CapabilitiesResponse("")
  {
    assert forall why :: Failure(CapabilitiesOp, why) == CapabilitiesResponse("");
    var e := UnmarshalReply(lib.canon, ErrorResponse(""), b);
    if e.Some? {
      assert e.value == ErrorResponse(e.value.err);
    }
  }

  /** Every failure of an exchange, for all nine operations, becomes a reply of the operation's own type with nothing
      but the error text: that of the exchange, or of the server, or of the decoding that failed. Capabilities, which
      has no Err, gives its zero value. */
  lemma FailuresAlike(lib: Library, op: Op, x: Exchange)
    requires Do(lib, x).error.Some? || UnmarshalReply(lib.canon, Failure(op, ""), x.bytes).None?
    ensures var r := Receive(lib, op, x);
            match x
            case NoRequest(why) => FailsWith(op, r, why)
            case NoResponse(why) => FailsWith(op, r, why)
            case Unreadable(_, why) => FailsWith(op, r, why)
            case Body(b) =>
              (match UnmarshalReply(lib.canon, ErrorResponse(""), b)
               case None => FailsWith(op, r, lib.cannotDecode(b))
               case Some(e) => FailsWith(op, r, if e.err != "" then e.err else lib.cannotDecode(b)))
    ensures IsFailure(op, Receive(lib, op, x))
  {
    var d := Do(lib, x);
    var why: Message := if d.error.Some? then d.error.value else lib.cannotDecode(x.bytes);
    FailureFails(op, why);
    assert Receive(lib, op, x) == Failure(op, why) && FailsWith(op, Receive(lib, op, x), why);
  }

  /** For the operations that return an ErrorResponse, the second decoding adds nothing to the first. */
  lemma OnlyErrorMatters(lib: Library, op: Op, x: Exchange)
    requires op.CreateOp? || op.UnmountOp? || op.RemoveOp?
    ensures var error := Do(lib, x).error;
            Receive(lib, op, x) == ErrorResponse(if error.Some? then error.value else "")
  {
    assert Failure(op, "") == ErrorResponse("");
  }

  /** Create, Unmount and Remove make the same reply of the same exchange, although Create drops the body. */
  lemma CreateReceivesAlike(lib: Library, x: Exchange)
    ensures Receive(lib, CreateOp, x) == Receive(lib, UnmountOp, x) == Receive(lib, RemoveOp, x)
  {
    OnlyErrorMatters(lib, CreateOp, x);
    OnlyErrorMatters(lib, UnmountOp, x);
    OnlyErrorMatters(lib, RemoveOp, x);
  }

  /** Whatever record carries an error text home, the client sees its own failure with that text. */
  lemma ErrorComesHome(lib: Library, op: Op, r: Reply)
    requires r.Err() != ""
    ensures Receive(lib, op, Body(MarshalReply(r))) == Failure(op, r.Err())
    ensures FailsWith(op, Receive(lib, op, Body(MarshalReply(r))), r.Err())
  {
    FailureFails(op, r.Err());
    ErrorView(lib.canon, r);
  }

  /** Every body an operation's failure is told in says why. */
  lemma RefusalsSay(op: Op, why: Message)
    ensures ReadFailure(op, why).Err() == DecodeFailure(op, why).Err() == why != ""
    ensures HasBody(op) ==> Failure(op, why).Err() == why
  {
  }

  /** The error bodies of the wrong type, in the Get and Path handlers, do no harm. */
  lemma MistypedBodiesAreHarmless(lib: Library, op: Op, why: Message)
    requires HasBody(op)
    ensures Receive(lib, op, Body(MarshalReply(ReadFailure(op, why)))) ==
            Receive(lib, op, Body(MarshalReply(DecodeFailure(op, why)))) ==
            Receive(lib, op, Body(MarshalReply(Failure(op, why))))
    ensures FailsWith(op, Receive(lib, op, Body(MarshalReply(ReadFailure(op, why)))), why)
  {
    RefusalsSay(op, why);
    ErrorComesHome(lib, op, ReadFailure(op, why));
    ErrorComesHome(lib, op, DecodeFailure(op, why));
    ErrorComesHome(lib, op, Failure(op, why));
  }

  lemma ReceiveDecoded(lib: Library, op: Op, b: Bytes, r: Reply)
    requires Answers(op, r) && r.Err() == ""
    requires UnmarshalReply(lib.canon, ErrorResponse(""), b) == Some(ErrorResponse(""))
    requires UnmarshalReply(lib.canon, Failure(op, ""), b) == Some(r)
    ensures Receive(lib, op, Body(b)) == r
  {
  }

  lemma ReplyComesHome(lib: Library, op: Op, r: Reply)
    requires Answers(op, r)
    ensures Receive(lib, op, Body(MarshalReply(r))) == Seen(op, r)
  {
    if r.Err() != "" {
      ErrorComesHome(lib, op, r);
    } else {
      ErrorView(lib.canon, r);
      ReplyRoundTrip(lib.canon, Failure(op, ""), r);
      ReceiveDecoded(lib, op, MarshalReply(r), r);
    }
  }

  // ---------- One hop ----------

  lemma OutwardWithoutBody(lib: Library, c: Call, f: Fate)
    requires Encodable(c) && f.request.None? && f.send.None? && !HasBody(c.Op())
    ensures Outward(lib, c, f) == Reached(c) && Interpreted(lib.canon, c) == Some(c)
  {
  }

  lemma OutwardWithBody(lib: Library, c: Call, f: Fate)
    requires Encodable(c) && f.request.None? && f.send.None? && HasBody(c.Op())
    ensures var o, i := Outward(lib, c, f), Interpreted(lib.canon, c);
            if f.read.None? && i.Some? then o == Reached(i.value) else o.Turned?
  {
    if f.read.None? {
      CallTrip(lib.canon, c);
    }
  }

  /** The driver is reached exactly when no stage before it fails, and then with the request as JSON carries it. */
  lemma OutwardExactly(lib: Library, c: Call, f: Fate)
    ensures Outward(lib, c, f).Reached? <==>
            && Encodable(c) && f.request.None? && f.send.None?
            && (HasBody(c.Op()) ==> f.read.None? && Interpreted(lib.canon, c).Some?)
    ensures Outward(lib, c, f).Reached? ==> Interpreted(lib.canon, c) == Some(Outward(lib, c, f).call)
  {
    if Encodable(c) && f.request.None? && f.send.None? {
      if HasBody(c.Op()) {
        OutwardWithBody(lib, c, f);
      } else {
        OutwardWithoutBody(lib, c, f);
      }
    }
  }

  lemma NotReached(lib: Library, c: Call, f: Fate)
    requires !Outward(lib, c, f).Reached?
    ensures Outward(lib, c, f).Turned? ==>
              HasBody(c.Op()) &&
              Outward(lib, c, f).body.Err() == if f.read.Some? then f.read.value else lib.cannotDecode(Payload(c))
    ensures Outward(lib, c, f).Stopped? ==>
              && IsFailure(c.Op(), Outward(lib, c, f).reply)
              && (!Encodable(c) || f.request.Some? || f.send.Some?)
              && FailsWith(c.Op(), Outward(lib, c, f).reply,
                   if !Encodable(c) then lib.cannotEncode(c)
                   else if f.request.Some? then f.request.value
                   else f.send.value)
  {
    if !Encodable(c) {
      var why: Message := lib.cannotEncode(c);
      FailureFails(c.Op(), why);
      assert FailsWith(c.Op(), Outward(lib, c, f).reply, why);
    } else if f.request.Some? {
      FailuresAlike(lib, c.Op(), NoRequest(f.request.value));
    } else if f.send.Some? {
      FailuresAlike(lib, c.Op(), NoResponse(f.send.value));
    } else if f.read.Some? {
      RefusalsSay(c.Op(), f.read.value);
    } else {
      RefusalsSay(c.Op(), lib.cannotDecode(Payload(c)));
    }
  }

  /** On the way back a reply either gets home in normal form or is replaced by a failure. */
  lemma HomewardExactly(lib: Library, op: Op, f: Fate, r: Reply)
    requires Answers(op, r) || r.Err() != ""
    ensures f.reply.None? && f.body.None? ==> Homeward(lib, op, f, r) == Seen(op, r)
    ensures f.reply.None? && f.body.None? && r.Err() != "" ==> FailsWith(op, Homeward(lib, op, f, r), r.Err())
    ensures f.reply.Some? ==> FailsWith(op, Homeward(lib, op, f, r), f.reply.value)
    ensures f.reply.None? && f.body.Some? ==> FailsWith(op, Homeward(lib, op, f, r), f.body.value.why)
    ensures f.reply.Some? || f.body.Some? ==> IsFailure(op, Homeward(lib, op, f, r))
  {
    if f.reply.None? && f.body.None? {
      if r.Err() != "" {
        ErrorComesHome(lib, op, r);
      } else {
        ReplyComesHome(lib, op, r);
      }
    } else {
      FailuresAlike(lib, op,
        if f.reply.Some? then NoResponse(f.reply.value) else Unreadable(f.body.value.partial, f.body.value.why));
    }
  }

  // ---------- Chains of hops ----------

  /** What a caller may see of a call: the driver ran it at most once, in the form JSON gives it; a reply
      without an error is the driver's own; every other reply is a bare failure. */
  ghost predicate AtMostOnce<S(!new)>(lib: Library, d: Driver<S>, s: S, c: Call, t: Step<S>) {
    if t.log == [] then t.state == s && IsFailure(c.Op(), t.reply)
    else
      && |t.log| == 1 && Some(t.log[0]) == Interpreted(lib.canon, c)
      && t.state == d(s, t.log[0]).0
      && (IsFailure(c.Op(), t.reply) || (t.reply.Err() == "" && t.reply == d(s, t.log[0]).1))
  }

  lemma AtMostOnceAnswers<S(!new)>(lib: Library, d: Driver<S>, s: S, c: Call, t: Step<S>)
    requires WellTyped(d) && AtMostOnce(lib, d, s, c, t)
    ensures Answers(c.Op(), t.reply)
  {
  }

  /** The normal form, field by field: a reply without an error is itself, any other says its error and no more. */
  lemma SeenIs(op: Op, r: Reply)
    ensures if r.Err() == "" then Seen(op, r) == r else FailsWith(op, Seen(op, r), r.Err())
  {
    FailureFails(op, r.Err());
  }

  lemma SeenIsSettled(op: Op, r: Reply)
    ensures IsFailure(op, Seen(op, r)) || (Seen(op, r) == r && r.Err() == "")
  {
    SeenIs(op, r);
    if r.Err() != "" {
      var why: Message := r.Err();
      assert FailsWith(op, Seen(op, r), why);
    }
  }

  lemma SeenTwice(op: Op, r: Reply)
    ensures Seen(op, Seen(op, r)) == Seen(op, r)
  {
  }

  /** Through any number of proxies, each failing in any way, a call happens at most once and no success is invented. */
  lemma {:induction false} ChainAtMostOnce<S(!new)>(lib: Library, d: Driver<S>, fates: seq<Fate>, s: S, c: Call)
    requires GoodCanon(lib.canon) && WellTyped(d) && fates != []
    ensures AtMostOnce(lib, d, s, c, Chain(lib, d, fates, s, c))
    decreases |fates|
  {
    var o := Outward(lib, c, fates[0]);
    if o.Reached? {
      OutwardExactly(lib, c, fates[0]);
      InterpretedIsStable(lib.canon, c);
      StableCallKept(lib.canon, o.call);
      var inner := Chain(lib, d, fates[1..], s, o.call);
      if |fates| > 1 {
        ChainAtMostOnce(lib, d, fates[1..], s, o.call);
        AtMostOnceAnswers(lib, d, s, o.call, inner);
      }
      HomewardSettles(lib, c.Op(), fates[0], inner.reply);
    } else {
      NotReached(lib, c, fates[0]);
      if o.Turned? {
        HomewardSettles(lib, c.Op(), fates[0], o.body);
      }
    }
  }

  lemma HomewardSettles(lib: Library, op: Op, f: Fate, r: Reply)
    requires Answers(op, r) || r.Err() != ""
    ensures IsFailure(op, Homeward(lib, op, f, r)) || (Homeward(lib, op, f, r) == r && r.Err() == "")
    ensures r.Err() != "" || IsFailure(op, r) ==> IsFailure(op, Homeward(lib, op, f, r))
  {
    HomewardExactly(lib, op, f, r);
    if f.reply.None? && f.body.None? {
      SeenIsSettled(op, r);
      if r.Err() != "" || IsFailure(op, r) {
        SeenFails(op, r);
      }
    }
  }

  lemma SeenFails(op: Op, r: Reply)
    requires r.Err() != "" || IsFailure(op, r)
    ensures IsFailure(op, Seen(op, r))
  {
    if r.Err() == "" {
      assert Seen(op, r) == r;
    }
    if r.Err() != "" {
      var why: Message := r.Err();
      FailureFails(op, why);
      assert FailsWith(op, Seen(op, r), why);
    }
  }

  lemma LastHop<S(!new)>(lib: Library, d: Driver<S>, f: Fate, s: S, c: Call, c': Call)
    requires Outward(lib, c, f) == Reached(c')
    ensures Chain(lib, d, [f], s, c) == Step(d(s, c').0, Homeward(lib, c.Op(), f, d(s, c').1), [c'])
  {
    assert [f][1..] == [];
    assert Chain(lib, d, [], s, c') == Step(d(s, c').0, d(s, c').1, [c']);
  }

  /** One HTTP exchange with the handlers in front of a driver: where it leaves the driver, what the client
      gets, and the calls made on the driver. */
  datatype Delivery<S> = Delivery(state: S, exchange: Exchange, log: seq<Call>)

  function Deliver<S>(lib: Library, d: Driver<S>, s: S, op: Op, f: Fate, payload: Bytes): Delivery<S> {
    if f.request.Some? then Delivery(s, NoRequest(f.request.value), [])
    else if f.send.Some? then Delivery(s, NoResponse(f.send.value), [])
    else
      var a := Handle(lib, op, if f.read.Some? then Broken(f.read.value) else Complete(payload));
      var written := if a.Refuse? then a.body else d(s, a.call).1;
      Delivery(
        if a.Refuse? then s else d(s, a.call).0,
        if f.reply.Some? then NoResponse(f.reply.value)
        else if f.body.Some? then Unreadable(f.body.value.partial, f.body.value.why)
        else Body(MarshalReply(written)),
        if a.Refuse? then [] else [a.call])
  }

  /** A hop is an exchange whose outcome the client method turns into a reply. */
  lemma HopIsDelivery<S(!new)>(lib: Library, d: Driver<S>, f: Fate, s: S, c: Call)
    requires Encodable(c)
    ensures var v := Deliver(lib, d, s, c.Op(), f, Payload(c));
            Chain(lib, d, [f], s, c) == Step(v.state, Receive(lib, c.Op(), v.exchange), v.log)
  {
    var o := Outward(lib, c, f);
    if o.Reached? {
      LastHop(lib, d, f, s, c, o.call);
    }
  }

  /** One working proxy: the driver's own reply in normal form, after exactly one call with the same request. */
  lemma OneHop<S(!new)>(lib: Library, d: Driver<S>, s: S, c: Call)
    requires WellTyped(d) && StableCall(lib.canon, c)
    ensures Chain(lib, d, [CLEAN], s, c) == Step(d(s, c).0, Seen(c.Op(), d(s, c).1), [c])
    ensures var r := d(s, c).1;
            var reply := Chain(lib, d, [CLEAN], s, c).reply;
            if r.Err() == "" then reply == r else FailsWith(c.Op(), reply, r.Err())
  {
    StableCallKept(lib.canon, c);
    OutwardExactly(lib, c, CLEAN);
    HomewardExactly(lib, c.Op(), CLEAN, d(s, c).1);
    LastHop(lib, d, CLEAN, s, c, c);
  }

  lemma ChainReaches<S(!new)>(lib: Library, d: Driver<S>, fates: seq<Fate>, s: S, c: Call, c': Call)
    requires fates != [] && Outward(lib, c, fates[0]) == Reached(c')
    ensures var inner := Chain(lib, d, fates[1..], s, c');
            Chain(lib, d, fates, s, c) == Step(inner.state, Homeward(lib, c.Op(), fates[0], inner.reply), inner.log)
  {
  }

  lemma HomeTwice(lib: Library, op: Op, r: Reply)
    requires Answers(op, r)
    ensures Homeward(lib, op, CLEAN, Seen(op, r)) == Homeward(lib, op, CLEAN, r)
  {
    FailureAnswers(op, r.Err());
    HomewardExactly(lib, op, CLEAN, Seen(op, r));
    SeenTwice(op, r);
    HomewardExactly(lib, op, CLEAN, r);
  }

  /** Proxies collapse: a chain of any length is one hop, for every request, carried or not. */
  lemma {:induction false} ChainsCollapse<S(!new)>(lib: Library, d: Driver<S>, fates: seq<Fate>, s: S, c: Call)
    requires GoodCanon(lib.canon) && WellTyped(d) && fates != [] && AllClean(fates)
    ensures Chain(lib, d, fates, s, c) == Chain(lib, d, [CLEAN], s, c)
    decreases |fates|
  {
    var o := Outward(lib, c, CLEAN);
    if |fates| == 1 {
      assert fates == [CLEAN];
    } else if o.Reached? {
      OutwardExactly(lib, c, CLEAN);
      InterpretedIsStable(lib.canon, c);
      ChainReaches(lib, d, fates, s, c, o.call);
      ChainsCollapse(lib, d, fates[1..], s, o.call);
      OneHop(lib, d, s, o.call);
      LastHop(lib, d, CLEAN, s, c, o.call);
      HomeTwice(lib, c.Op(), d(s, o.call).1);
    }
  }

  // ---------- Clients as drivers ----------

  /** The outermost client of a chain, seen as a driver. */
  function Proxy<S>(lib: Library, d: Driver<S>, fates: seq<Fate>): Driver<S> {
    (s: S, c: Call) => var t := Chain(lib, d, fates, s, c); (t.state, t.reply)
  }

  /** remoteClient implements Driver: whatever fails, every method returns its own response type. */
  lemma ProxyWellTyped<S(!new)>(lib: Library, d: Driver<S>, fates: seq<Fate>)
    requires WellTyped(d)
    ensures WellTyped(Proxy(lib, d, fates))
  {
    forall s: S, c: Call ensures Answers(c.Op(), Proxy(lib, d, fates)(s, c).1) {
      ChainAnswers(lib, d, fates, s, c);
    }
  }

  lemma ChainAnswers<S(!new)>(lib: Library, d: Driver<S>, fates: seq<Fate>, s: S, c: Call)
    requires WellTyped(d)
    ensures Answers(c.Op(), Chain(lib, d, fates, s, c).reply)
  {
    if fates == [] {
      assert Answers(c.Op(), d(s, c).1);
    } else {
      var o, f := Outward(lib, c, fates[0]), fates[0];
      match o {
        case Stopped(r) => OutwardAnswers(lib, c, f);
        case Turned(r) => HomewardAnswers(lib, c.Op(), f, r);
        case Reached(c') => HomewardAnswers(lib, c.Op(), f, Chain(lib, d, fates[1..], s, c').reply);
      }
    }
  }

  lemma OutwardAnswers(lib: Library, c: Call, f: Fate)
    requires Outward(lib, c, f).Stopped?
    ensures Answers(c.Op(), Outward(lib, c, f).reply)
  {
    NotReached(lib, c, f);
    FailureAnswers(c.Op(), Outward(lib, c, f).reply.Err());
  }

  lemma HomewardAnswers(lib: Library, op: Op, f: Fate, r: Reply)
    ensures Answers(op, Homeward(lib, op, f, r))
  {
    ReceiveAnswers(lib, op,
      if f.reply.Some? then NoResponse(f.reply.value)
      else if f.body.Some? then Unreadable(f.body.value.partial, f.body.value.why)
      else Body(MarshalReply(r)));
  }

  /** A client in front of a client is one longer chain: the same state and reply, and of the calls the inner client
      gets, at most one, the driver sees what the inner chain makes of it. */
  lemma {:induction false} ChainsCompose<S(!new)>(lib: Library, d: Driver<S>, outer: seq<Fate>, inner: seq<Fate>,
      s: S, c: Call)
    ensures var whole := Chain(lib, d, outer + inner, s, c);
            var t := Chain(lib, Proxy(lib, d, inner), outer, s, c);
            && whole.state == t.state && whole.reply == t.reply && |t.log| <= 1
            && whole.log == if t.log == [] then [] else Chain(lib, d, inner, s, t.log[0]).log
    decreases |outer|
  {
    if outer == [] {
      assert outer + inner == inner;
    } else {
      assert (outer + inner)[0] == outer[0] && (outer + inner)[1..] == outer[1..] + inner;
      var o := Outward(lib, c, outer[0]);
      if o.Reached? {
        ChainsCompose(lib, d, outer[1..], inner, s, o.call);
      }
    }
  }

  // ---------- Whole runs ----------

  /** One call of a client's history, and what befalls it at each proxy on the way. */
  datatype Trip = Trip(call: Call, fates: seq<Fate>)

  datatype Run<S> = Run(state: S, replies: seq<Reply>, log: seq<Call>)

  function RunChain<S>(lib: Library, d: Driver<S>, s: S, trips: seq<Trip>): Run<S> {
    if trips == [] then Run(s, [], [])
    else
      var t := Chain(lib, d, trips[0].fates, s, trips[0].call);
      var rest := RunChain(lib, d, t.state, trips[1..]);
      Run(rest.state, [t.reply] + rest.replies, t.log + rest.log)
  }

  /** The driver itself, called directly. */
  function RunDirect<S>(d: Driver<S>, s: S, calls: seq<Call>): (r: Run<S>)
    ensures |r.replies| == |calls| && r.log == calls
  {
    if calls == [] then Run(s, [], [])
    else
      var (s', reply) := d(s, calls[0]);
      var rest := RunDirect(d, s', calls[1..]);
      Run(rest.state, [reply] + rest.replies, [calls[0]] + rest.log)
  }

  /** log is what reached the driver of the trips' calls: some of them, in order, as JSON carries them. And of
      the replies, those without an error answer calls in log, each with the driver's own reply to it. */
  ghost predicate Accounts(lib: Library, trips: seq<Trip>, replies: seq<Reply>, log: seq<Call>, answers: seq<Reply>)
    requires |trips| == |replies| && |log| == |answers|
  {
    if trips == [] then log == []
    else
      var op := trips[0].call.Op();
      || (IsFailure(op, replies[0]) && Accounts(lib, trips[1..], replies[1..], log, answers))
      || (&& log != [] && Some(log[0]) == Interpreted(lib.canon, trips[0].call)
          && (IsFailure(op, replies[0]) || (replies[0].Err() == "" && replies[0] == answers[0]))
          && Accounts(lib, trips[1..], replies[1..], log[1..], answers[1..]))
  }

  /** Over any history of calls through any proxies and failures: the driver is where its own log of calls, made
      directly, would have put it, and the log accounts for every reply the client got. */
  lemma {:induction false} RunAtMostOnce<S(!new)>(lib: Library, d: Driver<S>, s: S, trips: seq<Trip>)
    requires GoodCanon(lib.canon) && WellTyped(d)
    requires forall i :: 0 <= i < |trips| ==> trips[i].fates != []
    ensures var r := RunChain(lib, d, s, trips);
            var direct := RunDirect(d, s, r.log);
            && |r.replies| == |trips| && r.state == direct.state
            && Accounts(lib, trips, r.replies, r.log, direct.replies)
  {
    if trips != [] {
      var c := trips[0].call;
      var t := Chain(lib, d, trips[0].fates, s, c);
      ChainAtMostOnce(lib, d, trips[0].fates, s, c);
      RunAtMostOnce(lib, d, t.state, trips[1..]);
      var rest := RunChain(lib, d, t.state, trips[1..]);
      var r := RunChain(lib, d, s, trips);
      assert r.replies[1..] == rest.replies;
      if t.log == [] {
        assert r.log == rest.log;
      } else {
        assert r.log[0] == t.log[0] && r.log[1..] == rest.log;
        var direct := RunDirect(d, s, r.log);
        assert direct.replies[0] == d(s, t.log[0]).1;
        assert direct.replies[1..] == RunDirect(d, t.state, rest.log).replies;
      }
    }
  }

  /** xs with some elements left out. */
  ghost predicate Subsequence<T>(xs: seq<T>, ys: seq<T>) {
    if xs == [] then true
    else ys != [] && ((xs[0] == ys[0] && Subsequence(xs[1..], ys[1..])) || Subsequence(xs, ys[1..]))
  }

  /** The requests as JSON carries them, those it cannot carry left out. */
  function Carriable(canon: Canon, trips: seq<Trip>): seq<Call> {
    if trips == [] then []
    else
      (match Interpreted(canon, trips[0].call) case None => [] case Some(c) => [c]) + Carriable(canon, trips[1..])
  }

  lemma {:induction false} AccountedInOrder(lib: Library, trips: seq<Trip>, replies: seq<Reply>, log: seq<Call>,
      answers: seq<Reply>)
    requires |trips| == |replies| && |log| == |answers| && Accounts(lib, trips, replies, log, answers)
    ensures Subsequence(log, Carriable(lib.canon, trips)) && |log| <= |trips|
    decreases |trips|
  {
    if trips != [] {
      var op := trips[0].call.Op();
      var all := Carriable(lib.canon, trips);
      var i := Interpreted(lib.canon, trips[0].call);
      assert i.Some? ==> all[0] == i.value && all[1..] == Carriable(lib.canon, trips[1..]);
      assert i.None? ==> all == Carriable(lib.canon, trips[1..]);
      if IsFailure(op, replies[0]) && Accounts(lib, trips[1..], replies[1..], log, answers) {
        AccountedInOrder(lib, trips[1..], replies[1..], log, answers);
      } else {
        AccountedInOrder(lib, trips[1..], replies[1..], log[1..], answers[1..]);
      }
    }
  }

  /** So the driver sees a subsequence of the calls the client made, in order and as JSON carries them: none is
      repeated, overtaken or invented, whatever failed. */
  lemma LogInOrder<S(!new)>(lib: Library, d: Driver<S>, s: S, trips: seq<Trip>)
    requires GoodCanon(lib.canon) && WellTyped(d)
    requires forall i :: 0 <= i < |trips| ==> trips[i].fates != []
    ensures var log := RunChain(lib, d, s, trips).log;
            Subsequence(log, Carriable(lib.canon, trips)) && |log| <= |trips|
  {
    var r := RunChain(lib, d, s, trips);
    RunAtMostOnce(lib, d, s, trips);
    AccountedInOrder(lib, trips, r.replies, r.log, RunDirect(d, s, r.log).replies);
  }

  function CallsOf(trips: seq<Trip>): (calls: seq<Call>)
    ensures |calls| == |trips|
  {
    if trips == [] then [] else [trips[0].call] + CallsOf(trips[1..])
  }

  /** The normal form of every reply. */
  function SeenReplies(calls: seq<Call>, replies: seq<Reply>): seq<Reply>
    requires |calls| == |replies|
  {
    if calls == [] then [] else [Seen(calls[0].Op(), replies[0])] + SeenReplies(calls[1..], replies[1..])
  }

  /** At least one proxy, every one of them working, and a request JSON carries unchanged. */
  ghost predicate Works(lib: Library, t: Trip) {
    t.fates != [] && AllClean(t.fates) && StableCall(lib.canon, t.call)
  }

  lemma WorkingTrip<S(!new)>(lib: Library, d: Driver<S>, s: S, t: Trip)
    requires GoodCanon(lib.canon) && WellTyped(d) && Works(lib, t)
    ensures Chain(lib, d, t.fates, s, t.call) == Step(d(s, t.call).0, Seen(t.call.Op(), d(s, t.call).1), [t.call])
  {
    ChainsCollapse(lib, d, t.fates, s, t.call);
    OneHop(lib, d, s, t.call);
  }

  /** With working proxies and requests JSON carries unchanged, a client cannot tell the stack from the driver,
      but for the normal form of error replies: same calls, same final state, same replies. */
  lemma {:induction false} StackRefinesDriver<S(!new)>(lib: Library, d: Driver<S>, s: S, trips: seq<Trip>)
    requires GoodCanon(lib.canon) && WellTyped(d)
    requires forall i :: 0 <= i < |trips| ==> Works(lib, trips[i])
    ensures var calls := CallsOf(trips);
            var direct := RunDirect(d, s, calls);
            RunChain(lib, d, s, trips) == Run(direct.state, SeenReplies(calls, direct.replies), calls)
  {
    if trips != [] {
      var c := trips[0].call;
      var (s', reply) := d(s, c);
      WorkingTrip(lib, d, s, trips[0]);
      StackRefinesDriver(lib, d, s', trips[1..]);
      var rest := RunDirect(d, s', CallsOf(trips[1..]));
      assert CallsOf(trips)[1..] == CallsOf(trips[1..]);
      assert RunDirect(d, s, CallsOf(trips)) == Run(rest.state, [reply] + rest.replies, [c] + rest.log);
      assert ([reply] + rest.replies)[1..] == rest.replies;
    }
  }

  // ---------- Any requests, working proxies ----------

  /** What the driver behind working proxies gets of a call, if anything. */
  function Delivered(canon: Canon, c: Call): Option<Call> {
    if Encodable(c) then Interpreted(canon, c) else None
  }

  function DeliveredCalls(canon: Canon, trips: seq<Trip>): seq<Call> {
    if trips == [] then []
    else
      (match Delivered(canon, trips[0].call) case None => [] case Some(c) => [c]) + DeliveredCalls(canon, trips[1..])
  }

  /** Each reply is the normal form of the driver's answer to the call that was delivered, or a bare failure if none
      was. */
  ghost predicate Reflects(canon: Canon, trips: seq<Trip>, replies: seq<Reply>, answers: seq<Reply>)
    requires |trips| == |replies|
  {
    if trips == [] then answers == []
    else
      var op := trips[0].call.Op();
      if Delivered(canon, trips[0].call).None? then
        IsFailure(op, replies[0]) && Reflects(canon, trips[1..], replies[1..], answers)
      else
        answers != [] && replies[0] == Seen(op, answers[0]) && Reflects(canon, trips[1..], replies[1..], answers[1..])
  }

  lemma CleanHop<S(!new)>(lib: Library, d: Driver<S>, s: S, c: Call)
    requires WellTyped(d)
    ensures var t, c' := Chain(lib, d, [CLEAN], s, c), Delivered(lib.canon, c);
            if c'.None? then t.state == s && t.log == [] && IsFailure(c.Op(), t.reply)
            else t == Step(d(s, c'.value).0, Seen(c.Op(), d(s, c'.value).1), [c'.value])
  {
    var o := Outward(lib, c, CLEAN);
    OutwardExactly(lib, c, CLEAN);
    if o.Reached? {
      LastHop(lib, d, CLEAN, s, c, o.call);
      HomewardExactly(lib, c.Op(), CLEAN, d(s, o.call).1);
    } else {
      NotReached(lib, c, CLEAN);
      NothingDelivered(lib, c);
      if o.Turned? {
        HomewardExactly(lib, c.Op(), CLEAN, o.body);
        SeenFails(c.Op(), o.body);
      }
    }
  }

  lemma NothingDelivered(lib: Library, c: Call)
    requires !Outward(lib, c, CLEAN).Reached?
    ensures Delivered(lib.canon, c).None?
  {
    OutwardExactly(lib, c, CLEAN);
    if !HasBody(c.Op()) {
      OutwardWithoutBody(lib, c, CLEAN);
    }
  }

  /** Working proxies, any number of them for each call, and any requests: the driver gets the calls JSON can carry, in
      the form it gives them, as if they had been made directly; and the client gets the answers in normal form. */
  lemma {:induction false} StackRefinesDelivered<S(!new)>(lib: Library, d: Driver<S>, s: S, trips: seq<Trip>)
    requires GoodCanon(lib.canon) && WellTyped(d)
    requires forall i :: 0 <= i < |trips| ==> trips[i].fates != [] && AllClean(trips[i].fates)
    ensures var r, calls := RunChain(lib, d, s, trips), DeliveredCalls(lib.canon, trips);
            var direct := RunDirect(d, s, calls);
            && r.state == direct.state && r.log == calls
            && |r.replies| == |trips| && Reflects(lib.canon, trips, r.replies, direct.replies)
  {
    if trips != [] {
      var c := trips[0].call;
      ChainsCollapse(lib, d, trips[0].fates, s, c);
      CleanHop(lib, d, s, c);
      var t := Chain(lib, d, trips[0].fates, s, c);
      StackRefinesDelivered(lib, d, t.state, trips[1..]);
      var rest, calls := RunChain(lib, d, t.state, trips[1..]), DeliveredCalls(lib.canon, trips[1..]);
      assert RunChain(lib, d, s, trips).replies[1..] == rest.replies;
      if Delivered(lib.canon, c).None? {
        assert DeliveredCalls(lib.canon, trips) == calls;
      } else {
        var c' := Delivered(lib.canon, c).value;
        assert DeliveredCalls(lib.canon, trips)[1..] == calls;
        DirectStep(d, s, c', calls);
      }
    }
  }

  lemma DirectStep<S(!new)>(d: Driver<S>, s: S, c: Call, calls: seq<Call>)
    ensures var whole, rest := RunDirect(d, s, [c] + calls), RunDirect(d, d(s, c).0, calls);
            whole.state == rest.state && whole.replies[0] == d(s, c).1 && whole.replies[1..] == rest.replies
  {
    assert ([c] + calls)[1..] == calls;
  }

  function OneHopEach(trips: seq<Trip>): seq<Trip> {
    if trips == [] then [] else [Trip(trips[0].call, [CLEAN])] + OneHopEach(trips[1..])
  }

  /** Whole runs collapse like chains: how many working proxies a call passes makes no difference to anything. */
  lemma {:induction false} RunsCollapse<S(!new)>(lib: Library, d: Driver<S>, s: S, trips: seq<Trip>)
    requires GoodCanon(lib.canon) && WellTyped(d)
    requires forall i :: 0 <= i < |trips| ==> trips[i].fates != [] && AllClean(trips[i].fates)
    ensures RunChain(lib, d, s, trips) == RunChain(lib, d, s, OneHopEach(trips))
  {
    if trips != [] {
      var t := Chain(lib, d, trips[0].fates, s, trips[0].call);
      ChainsCollapse(lib, d, trips[0].fates, s, trips[0].call);
      RunsCollapse(lib, d, t.state, trips[1..]);
      assert OneHopEach(trips)[1..] == OneHopEach(trips[1..]);
    }
  }
}
