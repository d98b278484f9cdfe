/**
 The client and the handlers as objects: a driver that keeps its state, a
 response writer that collects responses, a transport between them, and the
 remote client, each method tied to the functions of Rpc.
 */
module Stack {
  import opened Outcomes
  import opened Utf8
  import opened GoJson
  import opened GoJsonLaws
  import opened Messages
  import opened Rpc

  // Docker ignores HTTP status codes, so errors too are answered with 200.
  const STATUS_OK := 200
  const STATUS_INTERNAL_SERVER_ERROR := 200
  const STATUS_NOT_FOUND := 404

  datatype Response = Response(status: nat, body: Bytes)

  class ResponseWriter {
    var responses: seq<Response>

    constructor ()
      ensures responses == []
    {
      responses := [];
    }

    method Write(status: nat, body: Bytes)
      modifies this
      ensures responses == old(responses) + [Response(status, body)]
    {
      responses := responses + [Response(status, body)];
    }

    method WriteJSONResponse(status: nat, r: Reply)
      modifies this
      ensures responses == old(responses) + [Response(status, MarshalReply(r))]
    {
      Write(status, MarshalReply(r));
    }
  }

  /** An implementation of the Driver interface, with the history of the calls made on it. */
  class DriverObject<S(!new)> {
    const step: Driver<S>
    var state: S
    var calls: seq<Call>

    constructor (step: Driver<S>, state: S)
      ensures this.step == step && this.state == state && calls == []
    {
      this.step, this.state, calls := step, state, [];
    }

    method Invoke(c: Call) returns (r: Reply)
      modifies this
      ensures state == step(old(state), c).0 && r == step(old(state), c).1 && calls == old(calls) + [c]
    {
      var (s, reply) := step(state, c);
      state, r, calls := s, reply, calls + [c];
    }
  }

  // ---------- Routing ----------

  method FindRouteByName(name: string) returns (r: Option<Route>)
    ensures r.Some? ==> r.value in ROUTES && r.value.name == name
    ensures r.None? ==> forall i :: 0 <= i < |ROUTES| ==> ROUTES[i].name != name
    ensures forall op :: RouteName(op) == name ==> r == Some(ROUTES[OpIndex(op)])
  {
    for i := 0 to |ROUTES|
      invariant forall j :: 0 <= j < i ==> ROUTES[j].name != name
    {
      if ROUTES[i].name == name {
        r := Some(ROUTES[i]);
        forall op | RouteName(op) == name ensures r == Some(ROUTES[OpIndex(op)]) {
          RouteNamed(op);
          RouteNamed(OPS[i]);
          NamesAreUnique(op, OPS[i]);
        }
        return;
      }
    }
    r := None;
    forall op ensures RouteName(op) != name {
      RouteNamed(op);
    }
  }

  /** The router. OpAt says which requests are for which operation. */
  method FindHandler(verb: string, path: string) returns (r: Option<Op>)
    ensures r == OpAt(verb, path)
    ensures forall op :: r == Some(op) <==> verb == "POST" && path == ApiPath(op)
  {
    for i := 0 to |ROUTES|
      invariant forall j :: 0 <= j < i ==> ROUTES[j].verb != verb || ROUTES[j].path != path
    {
      if ROUTES[i].verb == verb && ROUTES[i].path == path {
        r := Some(OPS[i]);
        assert OpIndex(OPS[i]) == i;
        RoutesFollowApi(OPS[i]);
        return;
      }
    }
    r := None;
    forall op ensures verb != "POST" || path != ApiPath(op) {
      RoutesFollowApi(op);
    }
  }

  // ---------- Handlers ----------

  /** The handler of one operation: exactly one response, status 200 whatever happens, and the driver is called
      once or not at all, only with a request that was read and decoded. */
  method HandleRequest<S(!new)>(lib: Library, d: DriverObject<S>, op: Op, incoming: Incoming, w: ResponseWriter)
    modifies d, w
    ensures |w.responses| == |old(w.responses)| + 1 && w.responses[..|old(w.responses)|] == old(w.responses)
    ensures w.responses[|old(w.responses)|].status == 200
    ensures match Handle(lib, op, incoming)
            case Refuse(r) =>
              && d.state == old(d.state) && d.calls == old(d.calls)
              && w.responses[|old(w.responses)|].body == MarshalReply(r)
            case Admit(c) =>
              && d.state == d.step(old(d.state), c).0 && d.calls == old(d.calls) + [c]
              && w.responses[|old(w.responses)|].body == MarshalReply(d.step(old(d.state), c).1)
  {
    var c: Call;
    if HasBody(op) {
      if incoming.Broken? {
        w.WriteJSONResponse(STATUS_INTERNAL_SERVER_ERROR, ReadFailure(op, incoming.why));
        return;
      }
      var decoded := UnmarshalCall(lib.canon, op, incoming.bytes);
      if decoded.None? {
        w.WriteJSONResponse(STATUS_INTERNAL_SERVER_ERROR, DecodeFailure(op, lib.cannotDecode(incoming.bytes)));
        return;
      }
      c := decoded.value;
    } else {
      c := Unconditional(op);
    }
    var reply := d.Invoke(c);
    if reply.Err() != "" {
      w.WriteJSONResponse(STATUS_INTERNAL_SERVER_ERROR, reply);
      return;
    }
    w.WriteJSONResponse(STATUS_OK, reply);
  }

  // ---------- Transport ----------

  /** An HttpClient with NewHandler's server behind it. */
  class Transport<S(!new)> {
    const lib: Library
    const driver: DriverObject<S>

    constructor (lib: Library, driver: DriverObject<S>)
      ensures this.lib == lib && this.driver == driver
    {
      this.lib, this.driver := lib, driver;
    }

    /** The server's side: at the path of an operation, one response, and what its handler does to the driver; at any
        other, the driver is left alone. */
    method Serve(verb: string, path: string, incoming: Incoming) returns (r: Response)
      modifies driver
      ensures match OpAt(verb, path)
              case None =>
                && driver.state == old(driver.state) && driver.calls == old(driver.calls)
                && r == Response(404, lib.notFound)
              case Some(op) =>
                match Handle(lib, op, incoming)
                case Refuse(refusal) =>
                  && driver.state == old(driver.state) && driver.calls == old(driver.calls)
                  && r == Response(200, MarshalReply(refusal))
                case Admit(c) =>
                  && driver.state == driver.step(old(driver.state), c).0 && driver.calls == old(driver.calls) + [c]
                  && r == Response(200, MarshalReply(driver.step(old(driver.state), c).1))
    {
      var w := new ResponseWriter();
      var op := FindHandler(verb, path);
      if op.None? {
        w.Write(STATUS_NOT_FOUND, lib.notFound);
      } else {
        HandleRequest(lib, driver, op.value, incoming, w);
      }
      return w.responses[0];
    }

    /** At most one delivery, whatever is lost. */
    method Do(f: Fate, verb: string, path: string, payload: Bytes) returns (x: Exchange)
      modifies driver
      ensures match OpAt(verb, path)
              case None =>
                && driver.state == old(driver.state) && driver.calls == old(driver.calls)
                && x == if f.send.Some? then NoResponse(f.send.value)
                        else if f.reply.Some? then NoResponse(f.reply.value)
                        else if f.body.Some? then Unreadable(f.body.value.partial, f.body.value.why)
                        else Body(lib.notFound)
              case Some(op) =>
                f.request.None? ==>
                  var v := Deliver(lib, driver.step, old(driver.state), op, f, payload);
                  driver.state == v.state && x == v.exchange && driver.calls == old(driver.calls) + v.log
    {
      if f.send.Some? {
        return NoResponse(f.send.value);
      }
      var response := Serve(verb, path, if f.read.Some? then Broken(f.read.value) else Complete(payload));
      if f.reply.Some? {
        return NoResponse(f.reply.value);
      }
      if f.body.Some? {
        return Unreadable(f.body.value.partial, f.body.value.why);
      }
      return Body(response.body);
    }
  }

  // ---------- Client ----------

  /** The text Matches compares: nothing for a nil configuration, its JSON otherwise. */
  function TLSText(tls: Option<TLSConfig>): Bytes {
    if tls.None? then [] else Marshal(TLS_CONFIG, PackTLS(tls.value))
  }

  lemma TLSTextNotEmpty(canon: Canon, t: TLSConfig)
    ensures TLSText(Some(t)) != []
  {
    GoodTLS();
    UnmarshalMarshal(canon, TLS_CONFIG, PackTLS(t));
    NothingDecodes(canon, TLS_CONFIG);
  }

  /** Two configurations have the same text exactly when they are both nil or agree in every field. */
  lemma TLSTextInjective(canon: Canon, a: Option<TLSConfig>, b: Option<TLSConfig>)
    ensures TLSText(a) == TLSText(b) <==> a == b
  {
    if a.Some? && b.Some? {
      GoodTLS();
      MarshalInjective(canon, TLS_CONFIG, PackTLS(a.value), PackTLS(b.value));
      assert UnpackTLS(PackTLS(a.value)) == a.value && UnpackTLS(PackTLS(b.value)) == b.value;
    } else if a.Some? {
      TLSTextNotEmpty(canon, a.value);
    } else if b.Some? {
      TLSTextNotEmpty(canon, b.value);
    }
  }

  class RemoteClient<S(!new)> {
    const httpClient: Transport<S>
    var url: string
    var tls: Option<TLSConfig>

    /** NewRemoteClientWithClient: the url goes to the request generator only; the url field stays empty. */
    constructor WithClient(tls: Option<TLSConfig>, httpClient: Transport<S>)
      ensures this.httpClient == httpClient && this.url == "" && this.tls == tls
    {
      this.httpClient := httpClient;
      this.url := "";
      this.tls := tls;
    }

    method Matches(url: string, tls: Option<TLSConfig>) returns (b: bool)
      ensures b <==> url == this.url && tls == this.tls
    {
      if url != this.url {
        return false;
      }
      var tls1: Bytes, tls2: Bytes := [], [];
      if tls.Some? {
        tls1 := Marshal(TLS_CONFIG, PackTLS(tls.value));
      }
      if this.tls.Some? {
        tls2 := Marshal(TLS_CONFIG, PackTLS(this.tls.value));
      }
      TLSTextInjective(httpClient.lib.canon, tls, this.tls);
      return tls1 == tls2;
    }

    /** remoteClient.do: one request, at most one HttpClient.Do. */
    method Do(f: Fate, op: Op, payload: Bytes) returns (r: DoResult)
      modifies httpClient.driver
      ensures var d := httpClient.driver;
              var v := Deliver(httpClient.lib, d.step, old(d.state), op, f, payload);
              r == Rpc.Do(httpClient.lib, v.exchange) && d.state == v.state && d.calls == old(d.calls) + v.log
    {
      if f.request.Some? {
        return DoResult(None, Some(f.request.value));
      }
      RouteLeadsHome(op);
      var route := FindRouteByName(RouteName(op));
      var response := httpClient.Do(f, route.value.verb, route.value.path, payload);
      if response.Unreadable? {
        return DoResult(Some(response.partial), Some(response.why));
      }
      if !response.Body? {
        return DoResult(None, Some(response.why));
      }
      var data := response.bytes;
      var remoteError := UnmarshalReply(httpClient.lib.canon, ErrorResponse(""), data);
      if remoteError.None? {
        return DoResult(Some(data), Some(httpClient.lib.cannotDecode(data)));
      }
      if remoteError.value.err != "" {
        return DoResult(Some(data), Some(remoteError.value.err));
      }
      return DoResult(Some(data), None);
    }

    /** The client method of each operation: one hop of Rpc.Chain around the driver. */
    method Execute(c: Call, f: Fate) returns (r: Reply)
      modifies httpClient.driver
      ensures var d := httpClient.driver;
              var t := Chain(httpClient.lib, d.step, [f], old(d.state), c);
              d.state == t.state && r == t.reply && d.calls == old(d.calls) + t.log
    {
      var lib, op := httpClient.lib, c.Op();
      if !Encodable(c) {
        return Failure(op, lib.cannotEncode(c));
      }
      HopIsDelivery(lib, httpClient.driver.step, f, httpClient.driver.state, c);
      var response := Do(f, op, Payload(c));
      if response.error.Some? {
        return Failure(op, response.error.value);
      }
      if response.data.None? {
        return Failure(op, "Invalid response from driver.");
      }
      var decoded := UnmarshalReply(lib.canon, Failure(op, ""), response.data.value);
      if decoded.None? {
        return Failure(op, lib.cannotDecode(response.data.value));
      }
      if op.CreateOp? {
        return ErrorResponse("");
      }
      return decoded.value;
    }
  }

  /** NewRemoteClient: fails only if a TLS configuration is given and cannot be built; otherwise the client matches
      exactly the url and configuration it was made from. */
  method NewRemoteClient<S(!new)>(url: string, tls: Option<TLSConfig>, tlsError: Option<Message>,
        httpClient: Transport<S>)
      returns (client: RemoteClient?<S>, err: Option<Message>)
    ensures err == if tls.Some? then tlsError else None
    ensures err.Some? <==> client == null
    ensures client != null ==>
              fresh(client) && client.url == url && client.tls == tls && client.httpClient == httpClient
  {
    if tls.Some? && tlsError.Some? {
      return null, tlsError;
    }
    var driver := new RemoteClient.WithClient(tls, httpClient);
    driver.url := url;
    return driver, None;
  }
}
