/**
 What one method of FakeDriver promises: the configuration operations and
 calls made on it, in the order its mutex admits them, decide every answer.
 */
module RecorderSpec {
  import opened Outcomes
  import opened Messages

  /** A stub function, known by its identity; it runs outside every lock and may call the fake again. */
  datatype Stub = Stub(id: nat)

  /** The configuration operations XReturns, XReturnsOnCall and XCalls. */
  datatype Change =
    | SetReturns(result: Reply)
    | SetReturnsOnCall(k: int, result: Reply)
    | SetStub(stub: Option<Stub>)

  datatype Answer = RunStub(stub: Stub) | Value(result: Reply)

  /** The fields XStub, xReturns and xReturnsOnCall. */
  datatype Config = Config(stub: Option<Stub>, always: Reply, onCall: map<int, Reply>)

  function Apply(c: Config, change: Change): Config {
    match change
    case SetReturns(r) => c.(stub := None, always := r)
    case SetReturnsOnCall(k, r) => c.(stub := None, onCall := c.onCall[k := r])
    case SetStub(f) => c.(stub := f)
  }

  function Specific(c: Config, k: int): Option<Reply> {
    if k in c.onCall then Some(c.onCall[k]) else None
  }

  function Choose(c: Config, specific: Option<Reply>): Answer {
    if c.stub.Some? then RunStub(c.stub.value)
    else if specific.Some? then Value(specific.value)
    else Value(c.always)
  }

  // ---------- Histories ----------

  datatype Event = Changed(change: Change) | Called(arg: Call, answer: Answer)

  function ArgsOf(h: seq<Event>): seq<Call> {
    if h == [] then []
    else
      var last := h[|h| - 1];
      ArgsOf(h[..|h| - 1]) + if last.Called? then [last.arg] else []
  }

  function ConfigAfter(zero: Reply, h: seq<Event>): Config {
    if h == [] then Config(None, zero, map[])
    else
      var last := h[|h| - 1];
      var c := ConfigAfter(zero, h[..|h| - 1]);
      if last.Changed? then Apply(c, last.change) else c
  }

  /** The stub set by the latest configuration operation, if that was XCalls. */
  function CurrentStub(h: seq<Event>): Option<Stub> {
    if h == [] then None
    else
      match h[|h| - 1]
      case Changed(SetStub(f)) => f
      case Changed(_) => None
      case Called(_, _) => CurrentStub(h[..|h| - 1])
  }

  function LatestOnCall(h: seq<Event>, k: int): Option<Reply> {
    if h == [] then None
    else
      match h[|h| - 1]
      case Changed(SetReturnsOnCall(i, r)) => if i == k then Some(r) else LatestOnCall(h[..|h| - 1], k)
      case _ => LatestOnCall(h[..|h| - 1], k)
  }

  function LatestDefault(zero: Reply, h: seq<Event>): Reply {
    if h == [] then zero
    else
      match h[|h| - 1]
      case Changed(SetReturns(r)) => r
      case _ => LatestDefault(zero, h[..|h| - 1])
  }

  /** What call number k must answer: the current stub, else the latest on-call value for k, else the latest default. */
  function SpecAnswer(zero: Reply, h: seq<Event>, k: int): Answer {
    if CurrentStub(h).Some? then RunStub(CurrentStub(h).value)
    else if LatestOnCall(h, k).Some? then Value(LatestOnCall(h, k).value)
    else Value(LatestDefault(zero, h))
  }

  /** Every call in the history was answered as its own past demands, the calls numbered from 0. */
  ghost predicate Legal(zero: Reply, h: seq<Event>) {
    h == [] ||
    (var past, last := h[..|h| - 1], h[|h| - 1];
     && Legal(zero, past)
     && (last.Called? ==> last.answer == SpecAnswer(zero, past, |ArgsOf(past)|)))
  }

  /** The three fields hold just what the history's latest operations say. */
  lemma {:induction false} FieldsAreSpec(zero: Reply, h: seq<Event>, k: int)
    ensures var c := ConfigAfter(zero, h);
            c.stub == CurrentStub(h) && c.always == LatestDefault(zero, h) && Specific(c, k) == LatestOnCall(h, k)
  {
    if h != [] {
      FieldsAreSpec(zero, h[..|h| - 1], k);
    }
  }

  lemma ChooseIsSpec(zero: Reply, h: seq<Event>, k: int)
    ensures var c := ConfigAfter(zero, h); Choose(c, Specific(c, k)) == SpecAnswer(zero, h, k)
  {
    FieldsAreSpec(zero, h, k);
  }

  lemma Extend(zero: Reply, h: seq<Event>, e: Event)
    ensures var g := h + [e];
            && ArgsOf(g) == ArgsOf(h) + (if e.Called? then [e.arg] else [])
            && ConfigAfter(zero, g) ==
               (if e.Changed? then Apply(ConfigAfter(zero, h), e.change) else ConfigAfter(zero, h))
            && (Legal(zero, g) <==> Legal(zero, h) && (e.Called? ==> e.answer == SpecAnswer(zero, h, |ArgsOf(h)|)))
  {
    assert (h + [e])[..|h|] == h;
  }
}
