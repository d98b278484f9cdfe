/**
 What the threads of a FakeDriver were asked to do, seen from outside: the
 operations they began, in the order in which they finished, are what the fake
 has recorded.
 */
module RecorderRuns {
  import opened Outcomes
  import opened GoSlices
  import opened Messages
  import opened RecorderSpec
  import opened RecorderMachine
  import opened RecorderLiveness

  /** What each busy thread was asked to do, and what has been done, in order. */
  datatype Watch = Watch(doing: map<nat, Operation>, done: seq<Operation>)

  const NOTHING := Watch(map[], [])

  /** A thread is busy from the beginning of an operation until it is idle again. */
  function Observe(s: State, w: Watch, a: Action): Watch
    requires WellFormed(s) && Possible(s, a)
  {
    match a
    case Begin(t, op) => w.(doing := w.doing[t := op])
    case StubReturns(_) => w
    case Advance(t) =>
      var ts := Step(s, t).threads;
      if t < |ts| && ts[t].pc.Idle? && t in w.doing then Watch(w.doing - {t}, w.done + [w.doing[t]]) else w
  }

  ghost function Watched(s: State, w: Watch, run: seq<Action>): Watch
    requires PossibleRun(s, run)
    decreases |run|
  {
    if run == [] then w else Watched(Next(s, run[0]), Observe(s, w, run[0]), run[1..])
  }

  /** The calls and configuration operations on one method. */
  predicate Touches(op: Operation, m: nat) {
    (op.DoCall? || op.DoChange?) && op.m == m
  }

  function OpsOn(ops: seq<Operation>, m: nat): seq<Operation> {
    if ops == [] then []
    else
      var last := ops[|ops| - 1];
      OpsOn(ops[..|ops| - 1], m) + if Touches(last, m) then [last] else []
  }

  /** A history as the operations it tells of. */
  function AsOps(h: seq<Event>, m: nat): seq<Operation> {
    if h == [] then []
    else
      AsOps(h[..|h| - 1], m) +
      match h[|h| - 1]
      case Called(a, _) => [DoCall(m, a)]
      case Changed(change) => [DoChange(m, change)]
  }

  lemma OpsOnMore(ops: seq<Operation>, op: Operation, m: nat)
    ensures OpsOn(ops + [op], m) == OpsOn(ops, m) + if Touches(op, m) then [op] else []
  {
    assert (ops + [op])[..|ops|] == ops;
  }

  lemma AsOpsMore(h: seq<Event>, e: Event, m: nat)
    ensures AsOps(h + [e], m) == AsOps(h, m) + [if e.Called? then DoCall(m, e.arg) else DoChange(m, e.change)]
  {
    assert (h + [e])[..|h|] == h;
  }

  // ---------- What a thread does is what it was asked to do ----------

  predicate Doing(p: Pc, op: Operation) {
    match p
    case Idle => false
    case LockMethod(m, a) => op == DoCall(m, a)
    case AwaitMethod(m, a) => op == DoCall(m, a)
    case Entered(m, a) => op == DoCall(m, a)
    case Indexed(m, a, _, _) => op == DoCall(m, a)
    case Appended(m, a, _, _) => op == DoCall(m, a)
    case LockShared(m, a, _, _) => op == DoCall(m, a)
    case AwaitShared(m, a, _, _) => op == DoCall(m, a)
    case Recording(m, a, _, _) => op == DoCall(m, a)
    case Recorded(m, a, _, _) => op == DoCall(m, a)
    case UnlockMethod(m, a, _, _) => op == DoCall(m, a)
    case LockChange(m, change) => op == DoChange(m, change)
    case AwaitChange(m, change) => op == DoChange(m, change)
    case Changing(m, change) => op == DoChange(m, change)
    case UnlockChange(m) => op.DoChange? && op.m == m
    case LockRead(m) => op == DoRead(m)
    case AwaitRead(m) => op == DoRead(m)
    case Reading(m) => op == DoRead(m)
    case _ => op == DoInvocations
  }

  ghost predicate ThreadsTracked(s: State, w: Watch) {
    forall t: nat :: t < |s.threads| ==>
      (t in w.doing <==> !s.threads[t].pc.Idle?) && (t in w.doing ==> Doing(s.threads[t].pc, w.doing[t]))
  }

  /** The change that has been made on m by a thread still to unlock its mutex. */
  ghost function Unfinished(s: State, w: Watch, m: nat): seq<Operation>
    requires m + 1 < |s.locks|
  {
    var t := s.locks[m + 1].writer;
    if t.Some? && t.value in w.doing && WriterPc(s, m) == UnlockChange(m) then [w.doing[t.value]] else []
  }

  ghost predicate HistoryTracked(s: State, w: Watch, m: nat)
    requires WellFormed(s) && m < METHODS
  {
    AsOps(s.cells[m].history, m) == OpsOn(w.done, m) + Unfinished(s, w, m)
  }

  lemma CallKeepsDoing(s: State, t: nat, op: Operation)
    requires WellFormed(s) && CanAdvance(s, t) && Calling(s.threads[t].pc) && Doing(s.threads[t].pc, op)
    ensures |Step(s, t).threads| == |s.threads|
    ensures var p' := Step(s, t).threads[t].pc; if s.threads[t].pc.UnlockMethod? then p'.Idle? else Doing(p', op)
  {
  }

  lemma OtherKeepsDoing(s: State, t: nat, op: Operation)
    requires WellFormed(s) && CanAdvance(s, t) && !Calling(s.threads[t].pc) && Doing(s.threads[t].pc, op)
    ensures |Step(s, t).threads| == |s.threads|
    ensures var p' := Step(s, t).threads[t].pc; p'.Idle? || Doing(p', op)
  {
  }

  lemma ThreadsKept(s: State, w: Watch, a: Action)
    requires Inv(s) && ThreadsTracked(s, w) && Possible(s, a)
    ensures ThreadsTracked(Next(s, a), Observe(s, w, a))
  {
    var s', w' := Next(s, a), Observe(s, w, a);
    NextKeeps(s, a);
    if a.Advance? {
      if Calling(s.threads[a.t].pc) {
        CallKeepsDoing(s, a.t, w.doing[a.t]);
      } else {
        OtherKeepsDoing(s, a.t, w.doing[a.t]);
      }
    }
    forall t: nat | t < |s'.threads|
      ensures (t in w'.doing <==> !s'.threads[t].pc.Idle?) && (t in w'.doing ==> Doing(s'.threads[t].pc, w'.doing[t]))
    {
      if t != a.t {
        OthersStay(s, a, t);
      }
    }
  }

  // ---------- What is recorded is what was done ----------

  lemma QuietKeepsHistory(s: State, w: Watch, a: Action, m: nat)
    requires Inv(s) && ThreadsTracked(s, w) && Possible(s, a) && !a.Advance? && m < METHODS && HistoryTracked(s, w, m)
    ensures WellFormed(Next(s, a)) && HistoryTracked(Next(s, a), Observe(s, w, a), m)
  {
    NextKeeps(s, a);
    assert LockOk(s, m + 1);
    assert RoleOk(s.locks[m + 1], a.t, RoleAt(s.threads[a.t].pc, m + 1));
    assert WriterPc(Next(s, a), m) == WriterPc(s, m);
  }

  lemma ElsewhereUntouched(s: State, t: nat, m: nat)
    requires Inv(s) && CanAdvance(s, t) && m < METHODS && !WorksOn(s.threads[t].pc, m)
    ensures WellFormed(Step(s, t)) && Step(s, t).cells[m] == s.cells[m] && WriterPc(Step(s, t), m) == WriterPc(s, m)
    ensures Step(s, t).locks[m + 1].writer == s.locks[m + 1].writer && s.locks[m + 1].writer != Some(t)
  {
    assert LockOk(s, m + 1);
    StepMovesLocks(s, t, m + 1);
    OtherCellsKept(s, t, m);
    OtherWritersKept(s, t, m);
    assert RoleOk(s.locks[m + 1], t, RoleAt(s.threads[t].pc, m + 1));
    assert !RoleAt(s.threads[t].pc, m + 1).Holder? && !RoleAt(s.threads[t].pc, m + 1).Announced?;
  }

  lemma ElsewhereDone(s: State, w: Watch, t: nat, m: nat)
    requires Inv(s) && ThreadsTracked(s, w) && CanAdvance(s, t) && m < METHODS && !WorksOn(s.threads[t].pc, m)
    ensures OpsOn(Observe(s, w, Advance(t)).done, m) == OpsOn(w.done, m)
    ensures forall u :: u != t ==> (u in Observe(s, w, Advance(t)).doing <==> u in w.doing)
    ensures forall u :: u != t && u in w.doing ==> Observe(s, w, Advance(t)).doing[u] == w.doing[u]
  {
    assert !Touches(w.doing[t], m);
    OpsOnMore(w.done, w.doing[t], m);
  }

  lemma ElsewhereKeepsHistory(s: State, w: Watch, t: nat, m: nat)
    requires Inv(s) && ThreadsTracked(s, w) && CanAdvance(s, t) && m < METHODS && HistoryTracked(s, w, m)
    requires !WorksOn(s.threads[t].pc, m)
    ensures WellFormed(Step(s, t)) && HistoryTracked(Step(s, t), Observe(s, w, Advance(t)), m)
  {
    var w' := Observe(s, w, Advance(t));
    ElsewhereUntouched(s, t, m);
    ElsewhereDone(s, w, t, m);
    assert Unfinished(Step(s, t), w', m) == Unfinished(s, w, m);
  }

  /** Who holds the mutex of m before and after a step of a thread at work on it. */
  lemma WritersAt(s: State, t: nat, m: nat)
    requires Inv(s) && CanAdvance(s, t) && m < METHODS && WorksOn(s.threads[t].pc, m)
    ensures WellFormed(Step(s, t))
    ensures var p, rw, rw' := s.threads[t].pc, s.locks[m + 1], Step(s, t).locks[m + 1];
            && rw.writer == (if RoleAt(p, m + 1).Holder? then Some(t) else None)
            && rw'.writer == (if RoleAt(Step(s, t).threads[t].pc, m + 1).Holder? then Some(t) else None)
    ensures |Step(s, t).threads| == |s.threads|
  {
    assert LockOk(s, m + 1);
    StepMovesLocks(s, t, m + 1);
    StepKeeps(s, t);
    assert LockOk(Step(s, t), m + 1);
    assert RoleOk(s.locks[m + 1], t, RoleAt(s.threads[t].pc, m + 1));
    assert RoleOk(Step(s, t).locks[m + 1], t, RoleAt(Step(s, t).threads[t].pc, m + 1));
  }

  lemma CallWaitsHistory(s: State, t: nat, m: nat)
    requires WellFormed(s) && CanAdvance(s, t) && m < METHODS && WorksOn(s.threads[t].pc, m)
    requires var p := s.threads[t].pc; !p.UnlockMethod? && !p.Changing?
    ensures |Step(s, t).cells| == METHODS && Step(s, t).cells[m].history == s.cells[m].history
  {
  }

  lemma WaitingKeepsHistory(s: State, w: Watch, t: nat, m: nat)
    requires Inv(s) && ThreadsTracked(s, w) && CanAdvance(s, t) && m < METHODS && HistoryTracked(s, w, m)
    requires var p := s.threads[t].pc; WorksOn(p, m) && !p.UnlockMethod? && !p.Changing? && !p.UnlockChange?
    ensures WellFormed(Step(s, t)) && HistoryTracked(Step(s, t), Observe(s, w, Advance(t)), m)
  {
    WritersAt(s, t, m);
    if Calling(s.threads[t].pc) {
      CallKeepsDoing(s, t, w.doing[t]);
    } else {
      OtherKeepsDoing(s, t, w.doing[t]);
      ChangeWaits(s, t);
    }
    CallWaitsHistory(s, t, m);
  }

  lemma ChangeWaits(s: State, t: nat)
    requires WellFormed(s) && CanAdvance(s, t) && (s.threads[t].pc.LockChange? || s.threads[t].pc.AwaitChange?)
    ensures |Step(s, t).threads| == |s.threads|
    ensures var p' := Step(s, t).threads[t].pc; p'.AwaitChange? || p'.Changing?
  {
  }

  lemma ReturnStep(s: State, t: nat, m: nat)
    requires WellFormed(s) && CanAdvance(s, t) && m < METHODS
    requires WorksOn(s.threads[t].pc, m) && s.threads[t].pc.UnlockMethod?
    ensures var p, s' := s.threads[t].pc, Step(s, t);
            && |s'.cells| == METHODS && s'.cells[m].history == s.cells[m].history + [Called(p.arg, p.answer)]
            && |s'.threads| == |s.threads| && s'.threads[t].pc.Idle?
  {
  }

  lemma ReturnIsDone(s: State, w: Watch, t: nat, m: nat)
    requires Inv(s) && ThreadsTracked(s, w) && CanAdvance(s, t) && m < METHODS
    requires WorksOn(s.threads[t].pc, m) && s.threads[t].pc.UnlockMethod?
    ensures t in w.doing && w.doing[t] == DoCall(m, s.threads[t].pc.arg)
    ensures Observe(s, w, Advance(t)).done == w.done + [w.doing[t]]
  {
    CallKeepsDoing(s, t, w.doing[t]);
  }

  lemma ReturnKeepsHistory(s: State, w: Watch, t: nat, m: nat)
    requires Inv(s) && ThreadsTracked(s, w) && CanAdvance(s, t) && m < METHODS && HistoryTracked(s, w, m)
    requires WorksOn(s.threads[t].pc, m) && s.threads[t].pc.UnlockMethod?
    ensures WellFormed(Step(s, t)) && HistoryTracked(Step(s, t), Observe(s, w, Advance(t)), m)
  {
    WritersAt(s, t, m);
    ReturnStep(s, t, m);
    ReturnIsDone(s, w, t, m);
    OpsOnMore(w.done, w.doing[t], m);
    AsOpsMore(s.cells[m].history, Called(s.threads[t].pc.arg, s.threads[t].pc.answer), m);
    assert Unfinished(s, w, m) == [];
    assert Unfinished(Step(s, t), Observe(s, w, Advance(t)), m) == [];
  }

  lemma ChangingKeepsHistory(s: State, w: Watch, t: nat, m: nat)
    requires Inv(s) && ThreadsTracked(s, w) && CanAdvance(s, t) && m < METHODS && HistoryTracked(s, w, m)
    requires WorksOn(s.threads[t].pc, m) && s.threads[t].pc.Changing?
    ensures WellFormed(Step(s, t)) && HistoryTracked(Step(s, t), Observe(s, w, Advance(t)), m)
  {
    WritersAt(s, t, m);
    AsOpsMore(s.cells[m].history, Changed(s.threads[t].pc.change), m);
  }

  lemma ChangedKeepsHistory(s: State, w: Watch, t: nat, m: nat)
    requires Inv(s) && ThreadsTracked(s, w) && CanAdvance(s, t) && m < METHODS && HistoryTracked(s, w, m)
    requires WorksOn(s.threads[t].pc, m) && s.threads[t].pc.UnlockChange?
    ensures WellFormed(Step(s, t)) && HistoryTracked(Step(s, t), Observe(s, w, Advance(t)), m)
  {
    WritersAt(s, t, m);
    OpsOnMore(w.done, w.doing[t], m);
    CallWaitsHistory(s, t, m);
  }

  ghost predicate Tracked(s: State, w: Watch) {
    Inv(s) && ThreadsTracked(s, w) && forall m: nat :: m < METHODS ==> HistoryTracked(s, w, m)
  }

  lemma NextKeepsTracked(s: State, w: Watch, a: Action)
    requires Tracked(s, w) && Possible(s, a)
    ensures Tracked(Next(s, a), Observe(s, w, a))
  {
    NextKeeps(s, a);
    ThreadsKept(s, w, a);
    forall m: nat | m < METHODS ensures HistoryTracked(Next(s, a), Observe(s, w, a), m) {
      assert HistoryTracked(s, w, m);
      if !a.Advance? {
        QuietKeepsHistory(s, w, a, m);
      } else if !WorksOn(s.threads[a.t].pc, m) {
        ElsewhereKeepsHistory(s, w, a.t, m);
      } else if s.threads[a.t].pc.UnlockMethod? {
        ReturnKeepsHistory(s, w, a.t, m);
      } else if s.threads[a.t].pc.Changing? {
        ChangingKeepsHistory(s, w, a.t, m);
      } else if s.threads[a.t].pc.UnlockChange? {
        ChangedKeepsHistory(s, w, a.t, m);
      } else {
        WaitingKeepsHistory(s, w, a.t, m);
      }
    }
  }

  lemma {:induction false} RunKeepsTracked(s: State, w: Watch, run: seq<Action>)
    requires Tracked(s, w) && PossibleRun(s, run)
    ensures Tracked(After(s, run), Watched(s, w, run))
    decreases |run|
  {
    if run != [] {
      NextKeepsTracked(s, w, run[0]);
      RunKeepsTracked(Next(s, run[0]), Observe(s, w, run[0]), run[1..]);
    }
  }

  lemma StartTracked(zeros: seq<Reply>, grow: nat -> nat, threads: nat)
    requires |zeros| == METHODS
    ensures Tracked(Start(zeros, grow, threads), NOTHING)
  {
    StartInv(zeros, grow, threads);
  }

  /** The arguments of the calls among some operations. */
  function CallArgs(ops: seq<Operation>): seq<Call> {
    if ops == [] then []
    else
      var last := ops[|ops| - 1];
      CallArgs(ops[..|ops| - 1]) + if last.DoCall? then [last.arg] else []
  }

  lemma {:induction false} ArgsAreCallArgs(h: seq<Event>, m: nat)
    ensures ArgsOf(h) == CallArgs(AsOps(h, m))
  {
    if h != [] {
      var front, last := h[..|h| - 1], h[|h| - 1];
      ArgsAreCallArgs(front, m);
      assert h == front + [last];
      AsOpsMore(front, last, m);
      var op := if last.Called? then DoCall(m, last.arg) else DoChange(m, last.change);
      assert (AsOps(front, m) + [op])[..|AsOps(front, m)|] == AsOps(front, m);
    }
  }

  /** In every run, while nobody has the mutex of m, its history is the calls and configuration operations that were
      begun on m and have finished, with the very arguments they were begun with, in the order they finished; and
      both its records are the arguments of those calls. */
  lemma HistoryIsRun(zeros: seq<Reply>, grow: nat -> nat, threads: nat, run: seq<Action>, m: nat)
    requires |zeros| == METHODS && PossibleRun(Start(zeros, grow, threads), run) && m < METHODS
    requires After(Start(zeros, grow, threads), run).locks[m + 1].writer.None?
    ensures var s := After(Start(zeros, grow, threads), run);
            var done := OpsOn(Watched(Start(zeros, grow, threads), NOTHING, run).done, m);
            && AsOps(s.cells[m].history, m) == done
            && s.cells[m].args == Entry(s, m) == CallArgs(done)
  {
    var start := Start(zeros, grow, threads);
    StartTracked(zeros, grow, threads);
    RunKeepsTracked(start, NOTHING, run);
    var s := After(start, run);
    var w := Watched(start, NOTHING, run);
    assert HistoryTracked(s, w, m);
    assert CellOk(s.cells[m], Entry(s, m), WriterPc(s, m));
    ArgsAreCallArgs(s.cells[m].history, m);
  }

  lemma StepKeepsZero(s: State, t: nat, m: nat)
    requires WellFormed(s) && CanAdvance(s, t) && m < METHODS
    ensures |Step(s, t).cells| == METHODS && Step(s, t).cells[m].zero == s.cells[m].zero
  {
    if !WorksOn(s.threads[t].pc, m) {
      OtherCellsKept(s, t, m);
    }
  }

  lemma ZeroStays(s: State, a: Action, m: nat)
    requires WellFormed(s) && Possible(s, a) && m < METHODS
    ensures |Next(s, a).cells| == METHODS && Next(s, a).cells[m].zero == s.cells[m].zero
  {
    if a.Advance? {
      StepKeepsZero(s, a.t, m);
    }
  }

  lemma {:induction false} ZerosStay(s: State, run: seq<Action>, m: nat)
    requires Inv(s) && PossibleRun(s, run) && m < METHODS
    ensures |After(s, run).cells| == METHODS && After(s, run).cells[m].zero == s.cells[m].zero
    decreases |run|
  {
    if run != [] {
      NextKeeps(s, run[0]);
      ZeroStays(s, run[0], m);
      ZerosStay(Next(s, run[0]), run[1..], m);
    }
  }

  /** In every run each call was answered as the operations on its method before it demand, and where nothing was
      configured by the zero value that its own method was made with. */
  lemma AnswersAreLegal(zeros: seq<Reply>, grow: nat -> nat, threads: nat, run: seq<Action>, m: nat)
    requires |zeros| == METHODS && PossibleRun(Start(zeros, grow, threads), run) && m < METHODS
    ensures var s := After(Start(zeros, grow, threads), run);
            && |s.cells| == METHODS
            && Legal(zeros[m], s.cells[m].history) && s.cells[m].config == ConfigAfter(zeros[m], s.cells[m].history)
  {
    var start := Start(zeros, grow, threads);
    StartTracked(zeros, grow, threads);
    RunKeepsTracked(start, NOTHING, run);
    ZerosStay(start, run, m);
    var s := After(start, run);
    assert CellOk(s.cells[m], Entry(s, m), WriterPc(s, m));
  }

  // ---------- What the threads get back ----------

  /** XCallCount and XArgsForCall read a list that is complete: the arguments of all calls made so far. */
  lemma ReadsSeeCalls(s: State, t: nat)
    requires Reachable(s) && t < |s.threads| && s.threads[t].pc.Reading?
    ensures var m := s.threads[t].pc.m;
            m < METHODS && s.cells[m].args == ArgsOf(s.cells[m].history) == Entry(s, m)
  {
    ReachableInv(s);
    var m := s.threads[t].pc.m;
    assert LockOk(s, m + 1);
    assert RoleOk(s.locks[m + 1], t, RoleAt(s.threads[t].pc, m + 1));
    assert CellOk(s.cells[m], Entry(s, m), WriterPc(s, m));
  }

  /** A thread is inside one stub more after a call that a stub answers, one less after the stub returns. */
  lemma StubsNest(s: State, a: Action, t: nat)
    requires Inv(s) && Possible(s, a) && t < |s.threads|
    ensures |Next(s, a).threads| == |s.threads|
    ensures var p := s.threads[t].pc;
            Next(s, a).threads[t].depth == s.threads[t].depth +
            if a == Advance(t) && p.UnlockMethod? && p.answer.RunStub? then 1
            else if a == StubReturns(t) then -1
            else 0
  {
    NextKeeps(s, a);
    if a.t != t {
      OthersStay(s, a, t);
    }
  }

  /** How many stubs thread t is inside after a run: the calls of t that a stub answered, less the stubs of t that
      have returned. */
  ghost function Inside(s: State, run: seq<Action>, t: nat): int
    requires PossibleRun(s, run)
    decreases |run|
  {
    if run == [] then 0
    else
      var a := run[0];
      var entered := a == Advance(t) && s.threads[t].pc.UnlockMethod? && s.threads[t].pc.answer.RunStub?;
      (if entered then 1 else if a == StubReturns(t) then -1 else 0) + Inside(Next(s, a), run[1..], t)
  }

  lemma {:induction false} DepthIsInside(s: State, run: seq<Action>, t: nat)
    requires Inv(s) && PossibleRun(s, run) && t < |s.threads|
    ensures WellFormed(After(s, run)) && |After(s, run).threads| == |s.threads|
    ensures After(s, run).threads[t].depth == s.threads[t].depth + Inside(s, run, t)
    decreases |run|
  {
    if run != [] {
      NextKeeps(s, run[0]);
      StubsNest(s, run[0], t);
      DepthIsInside(Next(s, run[0]), run[1..], t);
    }
  }

  /** What the users of the fake may do is not held up: a thread with nothing under way, inside stubs or not, can begin
      any operation, and, inside one, return from it. */
  lemma ThreadsAreFree(zeros: seq<Reply>, grow: nat -> nat, threads: nat, run: seq<Action>, t: nat, op: Operation)
    requires |zeros| == METHODS && PossibleRun(Start(zeros, grow, threads), run) && t < threads
    ensures var start := Start(zeros, grow, threads);
            var s, idle := After(start, run), t !in Watched(start, NOTHING, run).doing;
            && WellFormed(s)
            && (Possible(s, Begin(t, op)) <==> idle && (op.DoInvocations? || op.m < METHODS))
            && (Possible(s, StubReturns(t)) <==> idle && Inside(start, run, t) > 0)
  {
    var start := Start(zeros, grow, threads);
    StartTracked(zeros, grow, threads);
    RunKeepsTracked(start, NOTHING, run);
    DepthIsInside(start, run, t);
  }

  ghost predicate NotBegun(run: seq<Action>, t: nat) {
    forall i :: 0 <= i < |run| ==> !(run[i].Begin? && run[i].t == t)
  }

  /** The thread has the finished copy, or has returned. */
  predicate Returning(p: Pc, copy: map<nat, Header>) {
    p.Idle? || (p.Copying? && p.j == METHODS && p.copy == copy) || (p.Releasing? && p.copy == copy)
  }

  lemma NextReturns(s: State, t: nat, copy: map<nat, Header>, a: Action)
    requires Inv(s) && Possible(s, a) && t < |s.threads| && Returning(s.threads[t].pc, copy)
    requires !(a.Begin? && a.t == t)
    ensures |Next(s, a).threads| == |s.threads| && Returning(Next(s, a).threads[t].pc, copy)
  {
    NextKeeps(s, a);
    if a.t != t {
      OthersStay(s, a, t);
    }
  }

  /** The copy that Invocations finished making is the one it holds until it returns. */
  lemma {:induction false} SnapshotIsReturned(s: State, t: nat, copy: map<nat, Header>, run: seq<Action>)
    requires Inv(s) && t < |s.threads| && Returning(s.threads[t].pc, copy)
    requires PossibleRun(s, run) && NotBegun(run, t)
    ensures t < |After(s, run).threads| && Returning(After(s, run).threads[t].pc, copy)
    decreases |run|
  {
    if run != [] {
      assert !(run[0].Begin? && run[0].t == t);
      NextReturns(s, t, copy, run[0]);
      NextKeeps(s, run[0]);
      assert forall i :: 0 <= i < |run[1..]| ==> run[1..][i] == run[i + 1];
      SnapshotIsReturned(Next(s, run[0]), t, copy, run[1..]);
    }
  }
}
