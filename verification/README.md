# A verified model of dockerdriver

dockerdriver is the client and server skeleton of a Docker volume driver: a
`Driver` interface of nine operations, HTTP handlers that put any `Driver` behind
JSON over HTTP, and `remoteClient`, which talks to such a server and is itself a
`Driver`. Beside them are a call-recording fake, a volume ID codec, and the files in
which drivers announce themselves. This project models these pieces in Dafny and
proves what they promise. `dafny verify dfyconfig.toml` checks it.

## What is modelled

- **The wire.** `Utf8`, `JsonText`, `Decimal` and `GoJson` are the parts of Go's
  standard library the code stands on, as functions: UTF-8 with Go's treatment of
  ill-formed bytes, JSON text printed and parsed as `encoding/json` does, and
  `Marshal`/`Unmarshal` driven by a description of the Go type: case-folded and repeated
  keys, `null`, nil and empty slices, decoding onto existing values, maps in key order.
  `JsonGrammar` is the grammar of sections 2 to 7 of RFC 8259 as the texts it generates,
  and proves the parser exact for it. `GoJsonLaws` proves that decoding undoes encoding,
  `GoJsonSpec` says what decoding means without its algorithm, and `WireText` what every
  request, reply and configuration looks like, letter by letter.
- **The RPC stack.** `Messages` holds the records and routes of `resources.go`. `Rpc`
  gives the client methods, the handlers and the transport as functions: `Chain` sends
  a call through any number of proxies, each with a `Fate` saying which of its stages
  fails. A driver is any state machine from calls to replies. `Stack` runs the same
  steps on objects (response writer, driver, transport, remote client), and each of its
  methods is proved against the functions of `Rpc`. The nine operations share one code
  path, parameterised by the operation; their differences (which have a body, what type
  an error body has, that `Create` drops the decoded reply, that `Capabilities` has no
  `Err`) are in tables.
- **The cancellation monitor.** `Monitor` interleaves the request context, the
  connection and the goroutine of `EnvWithMonitor`.
- **The call recorder.** `RecorderMachine` interleaves any number of threads over the
  nine method mutexes and the shared one of `FakeDriver`, one step per lock operation
  or field access, and with slices over a heap of arrays (`GoSlices`) that snapshots
  share with the fake. Its mutexes follow `sync.RWMutex`: a writer that has announced
  itself holds back new readers, further writers queue behind it unseen, and unlocking
  lets in the readers that wait before the next writer. `RecorderLiveness` says when
  the threads come to an end, `RecorderRuns` that what is recorded is what the threads
  were asked to do. `Recorder` is the same component as objects, for one
  thread at a time, with real arrays under the slices and with callers that append to
  them. `RecorderSpec` says which answer each call must get, looking backward over the
  history.
- **The volume ID codec** (`Text`, `VolumeId`) and **the driver-spec files**
  (`DriverSpec`), the latter over a file system that maps paths to bytes, with the
  4096-byte line buffer of `bufio.Reader`. `JsonPrefix` says how far the JSON parser
  looks, for files that were written only in part.

## What the proofs found

- Two volume IDs can print alike, since `=` is read back as `_`: the round trip is the
  identity exactly on IDs without `=` (`VolumeId.RoundTripExactly`, `EqualsIsLost`).
- `FakeDriver` can deadlock: a call takes its method's mutex and then the shared one,
  `Invocations` takes them the other way round. For every method a call of it and an
  `Invocations` are enough (`RecorderLiveness.DeadlockReachable`, `StuckForEver`), and
  there is no other deadlock (`DeadlockIsStuck`): callers that keep `Invocations` apart
  from calls have none (`NoDeadlock`). Operations under way can all finish exactly as
  long as no call that has its method's mutex, or is announced as its next writer, but
  not yet the shared one, meets an `Invocations` that has the shared mutex, or is in
  line for it before that call, and does not have the method's (`FinishExactly`). A
  call still queueing for its mutex does no harm (`QueuedCallsFinish`).
- A snapshot from `Invocations` is never changed by later calls, in any interleaving
  (`RecorderMachine.SnapshotNeverChanges`). But a caller that appends to a slice in it
  overwrites the fake's own record exactly if the method was called since and its
  record still fits the slice's capacity (`Recorder.CallerAppends`). Four calls get
  there (`RecordsComeApart`).
- A driver name with a dot makes `ReadDriverSpec` look at the wrong extension, unless
  the text after its first dot happens to be that extension (`DriverSpec.ExtensionSeen`):
  `nfs.v3.spec` is refused (`DottedNameRefused`).
- A write of a JSON spec that failed part way is never taken for a spec, wherever it
  stopped, within a character too (`DriverSpec.TornJson`). A spec file has no such
  protection: every non-empty part of a one-line address is read as a whole address
  (`DriverSpec.TornSpec`).
- The mistyped error bodies of the Get and Path handlers are harmless
  (`Rpc.MistypedBodiesAreHarmless`), and the "Invalid response from driver." branches
  cannot be taken (`Rpc.DataAfterSuccess`).
- Comments in `driverhttp/remote_client_test.go` (lines 242-243) speak of retries over
  30 seconds. The code makes one attempt per call, and the model follows the code.

## Model

| member | source | states |
|---|---|---|
| Rpc.ChainsCollapse | driverhttp/handlers.go:76-94 | Clients over handlers over clients over handlers, to any depth: the driver's calls, its state and the caller's reply are those of one hop, for every request and every driver |
| Rpc.OneHop | driverhttp/remote_client.go:382-417 | Through one working hop a request JSON carries unchanged reaches the driver exactly once and unchanged; the reply comes back whole if its Err is empty, else as the zero reply with that Err |
| Rpc.StackRefinesDriver | driverhttp/remote_client.go:108-376 | Over whole call histories a client behind any number of working hops sees what direct callers of the driver see, up to that normal form of error replies |
| Rpc.StackRefinesDelivered | driverhttp/remote_client.go:108-376 | Over whole call histories of any requests through working hops the driver gets the calls JSON can carry, in the form it gives them, as if made directly; each reply is the normal form of its answer, or a bare failure if the call was not delivered |
| Rpc.RunsCollapse | driverhttp/remote_client.go:108-376 | A whole history through any numbers of working hops equals the history with one hop for each call |
| Rpc.ChainAtMostOnce | driverhttp/remote_client.go:382-417 | Through any proxies failing at any stages a call reaches the driver at most once; a reply without an error is the driver's own reply to that very call, every other is a bare failure |
| Rpc.RunAtMostOnce | driverhttp/remote_client.go:382-417 | After any history of calls and failures the driver is where its own log of calls, made directly, would have put it, and the log accounts for every reply the client got |
| Rpc.AccountedInOrder | driverhttp/remote_client.go:382-417 | The driver's log is a subsequence, in order, of the client's calls as JSON carries them |
| Rpc.LogInOrder | driverhttp/remote_client.go:382-417 | After any history of calls and failures the driver has seen a subsequence of the client's calls, in order and as JSON carries them: none repeated, overtaken or invented |
| Rpc.ProxyWellTyped | driverhttp/remote_client.go:108-376 | A client over a well-typed driver is itself a well-typed driver, whatever fails |
| Rpc.ChainsCompose | driverhttp/remote_client.go:108-376 | A client in front of a client is one longer chain: same state, same reply, and the inner client gets at most one call |
| Rpc.OutwardExactly | driverhttp/handlers.go:205-234 | The driver is called if and only if encoding, request generation, sending, reading and decoding all succeed, and then with the request as JSON gives it |
| Rpc.HomewardExactly | driverhttp/remote_client.go:393-415 | A reply gets home in normal form, or is lost and replaced by a failure with the text of what lost it |
| Rpc.HopIsDelivery | driverhttp/remote_client.go:382-417 | The two accounts of a hop, way out and way back or one HTTP exchange, agree |
| Rpc.ReceiveExactly | driverhttp/remote_client.go:192-222 | For the eight operations whose replies have an Err: which exchanges a client method reports as success, if and only if, and that success returns the typed decoding and anything else a bare failure |
| Rpc.ReceiveCapabilities | driverhttp/remote_client.go:351-376 | Capabilities, whose reply has no Err, returns the typed decoding if the body decodes under both types and shows no error text, and its zero value otherwise |
| Rpc.FailuresAlike | driverhttp/remote_client.go:351-417 | Every failing exchange, for all nine operations, gives a reply of the operation's type whose Err is the text of that very failure and whose every other field is zero; Capabilities gives its zero value |
| Rpc.SeenIs | driverhttp/remote_client.go:411-413 | The normal form of a reply is the reply itself if it has no Err, else its Err and zero in every other field |
| Messages.BareIsTyped | driverhttp/remote_client.go:205-221 | A reply with an Err and zero in every other field is what its Go type makes of a body with that Err alone |
| Messages.FailsIsFailure | driverhttp/remote_client.go:205-208 | There is one failed reply for each operation and error text: its own type, that text, and zero values |
| Rpc.PayloadOnWire | driverhttp/remote_client.go:108-113 | What each client method sends, letter by letter: nothing for the three operations without arguments |
| Rpc.RefusalOnWire | driverhttp/handlers.go:119-132 | The body, letter by letter, that each handler answers to a request it cannot read or decode |
| Rpc.AdmitsExactly | driverhttp/handlers.go:205-234 | A handler calls the driver if and only if its operation has no body, or the body was read and decodes, and then with that request |
| Rpc.NotReached | driverhttp/remote_client.go:139-151 | A request stopped before the driver is answered by a failure with the text of the first stage that failed, and one the handler turns away by a body whose Err is that of the reading or the decoding |
| Rpc.CreateReceivesAlike | driverhttp/remote_client.go:134-164 | Create, Unmount and Remove are one function of the exchange although Create discards the decoded body |
| Rpc.DataAfterSuccess | driverhttp/remote_client.go:153-156 | After a successful do the data is neither nil nor empty, so the nil-response branches are dead |
| Rpc.MistypedBodiesAreHarmless | driverhttp/handlers.go:120-132 | The client makes of the error bodies of other types what it would make of correctly typed ones, for all operations with a body |
| Rpc.ReplyComesHome | driverhttp/handlers.go:133-142 | What a handler writes of a driver's reply, the client reads back in normal form |
| Messages.ReplyRoundTrip | resources.go:67-133 | Every reply record, of any strings, any volumes and any 64-bit MountCount, comes back from its JSON |
| Messages.CallTrip | resources.go:72-114 | The server decodes the request the client encoded, Opts passing through interface{} values |
| Messages.OptsArrive | driverhttp/handlers.go:218-225 | Of the options of a request every key arrives, in whatever order they were and with the last value given, and no other; the operation and the name stay |
| Messages.OptsAccepted | driverhttp/handlers.go:218-223 | A request is refused if and only if some option has a number no float64 holds, or no encoding |
| Messages.NameArrives | driverhttp/handlers.go:218-225 | From any body the name passed on is the last string under the key Name in any case of its letters |
| Messages.StableCallKept | resources.go:72-75 | A request with Opts that interface{} values leave alone is encodable and arrives unchanged |
| Messages.InterpretedIsStable | resources.go:72-75 | What one hop makes of any Opts, a second hop leaves alone |
| Messages.DecodingsAgree | driverhttp/remote_client.go:405-415 | On any bytes, when the typed decoding succeeds the ErrorResponse decoding succeeds too and sees the same Err |
| Messages.ErrorView | driverhttp/remote_client.go:405-413 | An encoded reply read as ErrorResponse shows exactly its own Err, or none for Capabilities |
| Messages.LastErrWins | driverhttp/remote_client.go:405-409 | Repeated, case-variant, null, mistyped and unknown keys: the last string under any case of Err counts, unknown keys never do |
| JsonGrammar.ParseExactly | driverhttp/handlers.go:218-219 | A text parses to a value if and only if it is that value written in the grammar of RFC 8259: any white space between tokens, any spelling of characters with surrogate pairs and escapes, any form of numbers |
| JsonText.ParsePrint | driverhttp/remote_client.go:139-145 | Parsing undoes printing for every JSON value, with any quotes, backslashes and control characters in its strings |
| JsonText.PrintIsSafe | driverhttp/remote_client.go:139-145 | Printed JSON has no control characters, line separators or HTML characters |
| JsonText.EscapesBriefly | driverhttp/remote_client.go:139-145 | Which characters are printed with a two-letter escape, which by their code and which plainly, and that codes have small letters |
| JsonPrefix.ValueLocal | driver_spec.go:79-80 | What the parser makes of a text depends on the part it consumes alone: anything may follow that, for any text and white space |
| JsonPrefix.CutObjectFails | driver_spec.go:79-80 | No strict prefix of the bytes of an encoded object parses, whether cut between characters or within one |
| GoJsonLaws.UnmarshalMarshal | driverhttp/remote_client.go:183-184 | Unmarshal into a zero value gives back what Marshal wrote, for every Go type of these shapes |
| GoJsonLaws.MarshalInjective | driverhttp/remote_client.go:92-105 | Two values of a type have the same encoding if and only if they are equal |
| GoJsonLaws.InterpretIntoGivesStable | resources.go:74 | Decoding into a map keeps the keys in order without repeats and every value in stable form |
| GoJsonSpec.InterpretIntoLooksUp | resources.go:74 | A map decoded from members in any order has the key of each, the last member with a key giving its value, and keeps the entries it had under other keys |
| GoJsonSpec.InterpretHolds | resources.go:74 | What an interface{} holds of a value: numbers rounded, objects as maps, everything else as it is |
| GoJsonSpec.InterpretAccepts | resources.go:74 | An interface{} takes every value but those with a number that has no float64, at any depth |
| GoJsonSpec.LessIsLexical | resources.go:74 | Encoded maps have their keys in lexical order |
| GoJsonSpec.NamesField | driverhttp/remote_client.go:405-409 | A key names a field if and only if it differs from it by the case of letters, with the two characters outside ASCII that fold to S and K |
| GoJsonSpec.StringField | driverhttp/remote_client.go:405-409 | A string field ends up with the last string under its name, or is refused if anything but a string or null is there |
| GoJsonSpec.LastScalarWins | resources.go:123-129 | Of string, integer and boolean fields the last value of the right kind counts, null leaves them, other kinds are refused |
| GoJsonSpec.LastMapMerges | resources.go:72-75 | A repeated map field adds to the map; null makes it nil |
| GoJsonSpec.ElemsLand | resources.go:86-89 | Element i of an array is decoded onto what the slice held at i |
| GoJsonSpec.SliceLands | resources.go:86-89 | An array decodes onto a slice if and only if each element does, changes exactly the elements the text has, and leaves what the array under the slice holds after them |
| GoJsonSpec.ObjectsMerge | resources.go:143-155 | A struct, a map, or a pointer's struct takes two objects one after the other as it takes one with the members of both |
| GoJsonSpec.NullMeans | resources.go:143-155 | null makes a pointer, slice or map nil, and leaves any other value as it is |
| GoJsonLaws.ProjectFields | driverhttp/remote_client.go:215-221 | Decoding a whole struct and decoding one of its fields alone agree on that field, for any members |
| Decimal.IntBack | resources.go:128 | Every 64-bit integer comes back from its decimal text |
| Decimal.ValueGrows | resources.go:125-129 | A digit more is ten times the number plus that digit |
| Decimal.IntExactly | resources.go:128 | A number decodes into an int if and only if it is an optional minus and digits with a value of 64 bits |
| Utf8.DecodeRuneExactly | driverhttp/remote_client.go:400-406 | A rune is read exactly where its encoding stands; where none does, one byte is taken for U+FFFD |
| WireText.RequestOnWire | resources.go:72-114 | The body of every request, letter by letter |
| WireText.ReplyOnWire | resources.go:67-137 | The body of every reply, letter by letter, with the names and order of its fields |
| WireText.TLSOnWire | resources.go:143-148 | The JSON of a TLS configuration, letter by letter |
| Utf8.DecodeFront | driverhttp/remote_client.go:400-406 | Encoded text decodes to itself whatever bytes follow |
| Stack.HandleRequest | driverhttp/handlers.go:114-143 | On any body a handler writes exactly one response, with status 200, and calls the driver once if the body was read and decoded and not at all otherwise |
| Stack.FindRouteByName | resources.go:22-32 | The loop over the route table finds the one route of each operation name |
| Stack.FindHandler | resources.go:22-32 | A request is for an operation if and only if it is a POST at that operation's path in Docker's plugin protocol |
| Stack.Transport.Serve | driverhttp/handlers.go:76-94 | A POST at the path of an operation is answered by that operation's handler; any other request leaves the driver alone |
| Stack.Transport.Do | driverhttp/remote_client.go:393-403 | One HttpClient.Do is at most one delivery to the handler |
| Stack.RemoteClient.Do | driverhttp/remote_client.go:382-417 | The early-return chain of do gives the result and the driver effect of one delivery |
| Stack.RemoteClient.Execute | driverhttp/remote_client.go:224-254 | A client method on objects is one hop of Rpc.Chain: same reply, same driver state, same calls |
| Stack.RemoteClient.Matches | driverhttp/remote_client.go:81-106 | True if and only if the urls are equal and the configurations both nil or equal in every field |
| Stack.TLSTextInjective | driverhttp/remote_client.go:89-105 | Comparing the encoded configurations decides equality, nil included |
| Stack.NewRemoteClient | driverhttp/remote_client.go:46-67 | Fails only for a TLS configuration that cannot be built; otherwise the client holds the url and configuration that Matches compares |
| Stack.RemoteClient.WithClient | driverhttp/remote_client.go:69-79 | A client made around a given HTTP client has an empty url field |
| Monitor.DerivedIsSafe | driverhttp/handlers.go:42-67 | In every interleaving the derived context ends only with the parent's cause or after the connection closed, and keeps its first cause |
| Monitor.QuietMeansDelivered | driverhttp/handlers.go:52-64 | When no step is left the derived context is done if and only if the parent is, or the connection closed and the writer can notify |
| Monitor.Confluence | driverhttp/handlers.go:56-63 | Any two schedules that come to rest agree on done and on the goroutine, and on everything unless both events came with different causes |
| Monitor.EitherCause | driverhttp/handlers.go:56-63 | When the deadline passes and the connection closes together, either cause can be the one the driver sees |
| Monitor.StartsDone | driverhttp/handlers.go:42-47 | A request whose context is already done gives the driver a context that is done at once |
| Monitor.ComesToRest | driverhttp/handlers.go:56-63 | Without new events the monitor rests after at most three steps |
| Monitor.OutsideIsFree | driverhttp/handlers.go:56-63 | After any run the connection can close, once, and the request context can end with either cause, unless it has before |
| RecorderMachine.RecordsAgree | dockerdriverfakes/fake_driver_client.go:427-445 | In every interleaving, while a method's mutex is not write-held, its argument list and its invocations hold the same calls in the same order, all answered as the history demands |
| RecorderRuns.HistoryIsRun | dockerdriverfakes/fake_driver_client.go:427-487 | In every run, while nobody has a method's mutex, its history is the calls and configuration operations begun on it and finished, with the arguments they were begun with, in the order they finished, and both its records are the arguments of those calls |
| RecorderRuns.AnswersAreLegal | dockerdriverfakes/fake_driver_client.go:429-442 | In every run each call was answered as the operations on its method before it demand, by default with the zero value its own method started with |
| RecorderRuns.ReadsSeeCalls | dockerdriverfakes/fake_driver_client.go:447-464 | While a reading operation holds a method's mutex, the argument list is that of all calls made |
| RecorderRuns.SnapshotIsReturned | dockerdriverfakes/fake_driver_client.go:696-701 | The copy that Invocations finished is the one it returns |
| RecorderRuns.StubsNest | dockerdriverfakes/fake_driver_client.go:437-439 | A thread enters a stub exactly when a call is answered by one, after the mutex is released |
| RecorderRuns.ThreadsAreFree | dockerdriverfakes/fake_driver_client.go:427-439 | After any run a thread with nothing under way can begin any operation, and return from a stub exactly when more of its calls were answered by stubs than have returned |
| RecorderMachine.StepKeeps | dockerdriverfakes/fake_driver_client.go:427-440 | Every step of every thread keeps the lock, record, answer and copy invariants |
| RecorderMachine.CallsAreNumbered | dockerdriverfakes/fake_driver_client.go:428-436 | Concurrent calls get distinct consecutive numbers, and each the answer for its number |
| RecorderMachine.SnapshotIsInstant | dockerdriverfakes/fake_driver_client.go:675-701 | The map Invocations returns shows the argument lists of all nine methods at one instant |
| RecorderMachine.SnapshotNeverChanges | dockerdriverfakes/fake_driver_client.go:696-713 | Whatever the threads do later, a snapshot's slices show what they showed, although calls go on appending to the arrays they share |
| RecorderLiveness.WritersPassExactly | dockerdriverfakes/fake_driver_client.go:427-439 | Lock: a writer can announce itself exactly while no other has the mutex or is announced, whoever reads, and gets it exactly once nobody reads |
| RecorderLiveness.ReadersPassExactly | dockerdriverfakes/fake_driver_client.go:447-464 | RLock: a reader can always ask, and is let in at once exactly if no writer has the mutex or is announced |
| RecorderLiveness.DeadlockIsStuck | dockerdriverfakes/fake_driver_client.go:427-440 | When operations are under way and none can step, some call waits for the shared mutex and some Invocations holds it and waits for that call's mutex |
| RecorderLiveness.NoDeadlock | dockerdriverfakes/fake_driver_client.go:427-440 | While no call runs beside an Invocations, some operation under way can step, with configuration and reading operations beside either and stubs free to call the fake again |
| RecorderLiveness.DeadlockReachable | dockerdriverfakes/fake_driver_client.go:675-695 | For every method, a call of it and an Invocations reach a state where each waits for the other and nothing can step |
| RecorderLiveness.StuckForEver | dockerdriverfakes/fake_driver_client.go:675-695 | From such a state no run ever takes either thread past the lock it needs |
| RecorderLiveness.FinishExactly | dockerdriverfakes/fake_driver_client.go:427-440 | Some run brings every thread to rest if and only if no call with a claim to its method's mutex and the shared one ahead meets an Invocations that has the shared mutex, or is let in to it first, and not the method's |
| RecorderLiveness.QueuedCallsFinish | dockerdriverfakes/fake_driver_client.go:427-428 | When no call has a claim to its method's mutex with the shared one ahead, everything can finish, however many calls queue for their mutexes |
| RecorderLiveness.OperationsFinish | dockerdriverfakes/fake_driver_client.go:427-440 | From every state that is not doomed the steps of the operations under way alone can bring them all to their end |
| RecorderLiveness.RunsEnd | dockerdriverfakes/fake_driver_client.go:427-440 | Without new operations every run has exactly as many steps as it takes off the steps left, so none goes on for ever |
| RecorderSpec.ChooseIsSpec | dockerdriverfakes/fake_driver_client.go:437-444 | The fields' answer is the current stub's, else the latest on-call value for the number, else the latest default |
| Recorder.FakeMethod.Invoke | dockerdriverfakes/fake_driver_client.go:427-445 | A call grows both records by its arguments, is answered as the history demands, and changes no other method's record and no slice handed out |
| Recorder.FakeMethod.Configure | dockerdriverfakes/fake_driver_client.go:453-487 | Calls, Returns and ReturnsOnCall change the configuration and neither record |
| Recorder.FakeMethod.CallCount | dockerdriverfakes/fake_driver_client.go:447-451 | The count is the number of calls in the history |
| Recorder.FakeMethod.ArgsForCall | dockerdriverfakes/fake_driver_client.go:459-464 | Argument i is that of call i, in both records |
| Recorder.InvocationLog.RecordInvocation | dockerdriverfakes/fake_driver_client.go:703-713 | One record grows, in its array while there is room there; the others and every slice handed out show what they showed, although arrays are shared |
| Recorder.InvocationLog.Invocations | dockerdriverfakes/fake_driver_client.go:696-700 | The copied map shows every method's calls; methods never called have no key |
| Recorder.InvokeBeside | dockerdriverfakes/fake_driver_client.go:427-445 | A call of one method leaves another method of the same fake valid and its history alone |
| Recorder.CallerAppends | dockerdriverfakes/fake_driver_client.go:696-713 | A caller's append to a slice it was handed replaces one entry of the fake's record if and only if len(slice) < number of calls <= cap(slice); what every record and every slice handed out shows afterwards is stated |
| Recorder.CallsThenAppend | dockerdriverfakes/fake_driver_client.go:696-713 | The same over the fake's own operations: any calls, Invocations, any more calls and an append, for any growth of arrays |
| Recorder.RecordsComeApart | dockerdriverfakes/fake_driver_client.go:696-713 | With arrays that double, three calls, Invocations, a fourth call and an append leave the argument list and the record different |
| VolumeId.PrintIs | utils/volume_id.go:30-32 | A printed ID, character by character: prefix, underscore, suffix, with underscores as "=" |
| VolumeId.PrintParse | utils/volume_id.go:20-28 | The parser accepts exactly the strings with one underscore, and re-encoding gives the string back |
| VolumeId.ParsePrint | utils/volume_id.go:30-32 | Every printed ID is accepted and gives the pair with each "=" turned into "_" |
| VolumeId.RoundTripExactly | utils/volume_id.go:20-32 | Print then parse is the identity if and only if neither part has "=" |
| VolumeId.RoundTripSettles | utils/volume_id.go:20-32 | A second round trip changes nothing |
| VolumeId.PrintAlike | utils/volume_id.go:30-32 | Two IDs print alike if and only if they agree up to exchanging "=" and "_" |
| VolumeId.EqualsIsLost | utils/volume_id.go:27 | An ID with "=" comes back different |
| Text.SplitLaws | utils/volume_id.go:21 | Split cuts once per separator, leaves none, and joins back to the string |
| Text.SplitJoin | utils/volume_id.go:21-31 | Parts free of the separator come back from their joining |
| DriverSpec.FileSystem.WriteDriverSpec | driver_spec.go:14-38 | The file holds the contents on success, a prefix after a failed write, and nothing else changes |
| DriverSpec.FileSystem.ReadDriverSpec | driver_spec.go:40-98 | The switch on the extension computes ReadSpec, for every file and every error |
| DriverSpec.SpecRoundTrip | driver_spec.go:55-70 | Written with extension spec, and spec being the extension read, an address is read back if and only if it fits one line of the default buffer |
| DriverSpec.FirstLineIsLine | driver_spec.go:61-62 | Exactly when the first line of a longer file is read as it stands, without its LF or CR LF, the edge of the 4096-byte buffer included |
| DriverSpec.UnendedLine | driver_spec.go:61-62 | What is read of a file without a line feed among its first 4096 bytes, cut there, whole or none |
| DriverSpec.UnreadableSpec | driver_spec.go:56-81 | Exactly when reading a spec or json file fails, and how: no such file, no line, no JSON of the shape |
| DriverSpec.NoExtension | driver_spec.go:42-47 | A file name without a dot gives the zero specification |
| DriverSpec.SpecOnDisk | resources.go:150-155 | The text of a JSON spec file, letter by letter |
| DriverSpec.AnyLayoutReads | driver_spec.go:79-80 | A JSON spec file laid out in any way the grammar allows is decoded from the value it stands for |
| DriverSpec.JsonRoundTrip | driver_spec.go:71-90 | json being the extension read, every encoded spec reads back with only the name replaced, whatever follows it in the file |
| DriverSpec.TornJson | driver_spec.go:30-80 | Any strict prefix of an encoded spec, left by a failed write, is refused as bad JSON |
| DriverSpec.TornSpec | driver_spec.go:30-70 | Any strict prefix of an address that fits one line is read as a whole address, except the empty one, which is refused |
| DriverSpec.WriteThenReadSpec | driver_spec.go:14-70 | On the file system object: after any write, whole or torn, the read gives back what was left if and only if that fits one line |
| DriverSpec.WriteThenReadJson | driver_spec.go:14-90 | On the file system object: after any write the read gives back the encoded spec if it was written whole, and an error if it was torn |
| DriverSpec.OtherExtensions | driver_spec.go:49-94 | For any driver name: a file read as sock is its own address whether or not it exists, and unknown extensions are refused by name |
| DriverSpec.ExtensionSeen | driver_spec.go:47-49 | The extension written is the one read if and only if the driver name has no dot or has that extension after its first one |
| DriverSpec.DottedNameRefused | driver_spec.go:47-94 | Whatever was written for driver nfs.v3 with extension spec, reading it is refused as extension v3 |

## Left out

- Go strings that are not valid UTF-8: a `string` here is a sequence of Unicode scalar values. Bytes received from a peer or a file are arbitrary.
- Decoder nesting limit: `encoding/json` refuses text nested deeper than 10000 levels; this parser has no limit.
- Numbers in `Opts`: literals, with the rounding to float64 and back an arbitrary idempotent function that may refuse a literal. Go values in `Opts` are the JSON values they encode to, or `Foreign` if they have no encoding.
- Error texts: whatever the library produces, known only to be non-empty where the code relies on it; likewise the router's page for an unmatched request. The error for a malformed volume ID holds the refused string, without the words around it.
- Env: the logger and context passed to a driver are not part of a call, so a driver's reaction to cancellation is its own behaviour; log output, sessions and the clock have no effect on results.
- HTTP itself: headers, status texts, sockets, TLS handshakes and certificate files. A TLS configuration either builds or gives an error. net/http may retry below `HttpClient.Do`; at-most-once is relative to that call.
- Router internals: exact paths and verbs; a verb mismatch is answered 404 here and 405 by the router.
- Nine separate client methods, handlers and fake methods: one of each, parameterised by the operation, since the nine differ only in the tables given.
- `Stack` chains: objects are given for one hop; chains of hops and whole runs are proved on `Rpc`'s functions.
- Recorder objects under threads: `Recorder` runs each operation as one step, its lock held; interleavings are in `RecorderMachine`. A caller that appends to a snapshot while calls go on has a data race, and only `Recorder` has such callers.
- Stack.NewRemoteClient: whether a TLS configuration builds is an input, because it depends on certificate files, which are not modelled.
- RWMutex internals: taking the inner mutex and announcing the writer are one step of `Lock`, and the parts of `Unlock` are one step; the steps left out only delay writers.
- Context propagation: the parent's end reaching the derived context is one step of its own, not Go's internal locking.
- Path joining: an arbitrary function, the same on both sides; directories, permissions, and read errors other than a missing file are not modelled.
- The other fakes: the same generated shape as `FakeDriver`.
- The integration, compatibility and lazy-unmount suites: they exercise drivers that are not in the repository.
