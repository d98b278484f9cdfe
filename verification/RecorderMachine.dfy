/**
 FakeDriver under any number of threads: nine method mutexes, the shared
 mutex of the invocations map, and every step between two lock operations,
 interleaved in any order.
 */
module RecorderMachine {
  import opened Outcomes
  import opened GoSlices
  import opened Messages
  import opened RecorderSpec

  /** The methods are numbered 0 to 8 in the order in which Invocations locks them. */
  const METHODS: nat := 9

  /** Lock 0 is invocationsMutex; lock m + 1 is the mutex of method m. */
  const LOCKS: nat := 10

  /** sync.RWMutex: the writer that has it, the one that has announced itself and waits for the readers to leave, the
      readers that have it, and those that came after the announcement and wait for that writer to unlock. */
  datatype RWMutex = RWMutex(writer: Option<nat>, pending: Option<nat>, readers: set<nat>, waiting: set<nat>)
  {
    /** A further writer queues outside, unseen by readers, until there is none. */
    predicate NoWriter() {
      writer.None? && pending.None?
    }

    function Announce(t: nat): RWMutex {
      this.(pending := Some(t))
    }

    function Take(t: nat): RWMutex {
      this.(writer := Some(t), pending := None)
    }

    /** Unlock lets in the readers that wait before any further writer. */
    function Release(): RWMutex {
      this.(writer := None, readers := readers + waiting, waiting := {})
    }

    function Arrive(t: nat): RWMutex {
      if NoWriter() then this.(readers := readers + {t}) else this.(waiting := waiting + {t})
    }

    function Leave(t: nat): RWMutex {
      this.(readers := readers - {t})
    }
  }

  const UNLOCKED := RWMutex(None, None, {}, {})

  /** Where a thread is. In a Lock state it is about to ask for a lock, in an Await state it has asked. */
  datatype Pc =
    | Idle
    // a call of method m
    | LockMethod(m: nat, arg: Call)
    | AwaitMethod(m: nat, arg: Call)
    | Entered(m: nat, arg: Call)
    | Indexed(m: nat, arg: Call, k: nat, specific: Option<Reply>)
    | Appended(m: nat, arg: Call, k: nat, specific: Option<Reply>)
    | LockShared(m: nat, arg: Call, k: nat, answer: Answer)
    | AwaitShared(m: nat, arg: Call, k: nat, answer: Answer)
    | Recording(m: nat, arg: Call, k: nat, answer: Answer)
    | Recorded(m: nat, arg: Call, k: nat, answer: Answer)
    | UnlockMethod(m: nat, arg: Call, k: nat, answer: Answer)
    // a configuration operation
    | LockChange(m: nat, change: Change)
    | AwaitChange(m: nat, change: Change)
    | Changing(m: nat, change: Change)
    | UnlockChange(m: nat)
    // XCallCount and XArgsForCall
    | LockRead(m: nat)
    | AwaitRead(m: nat)
    | Reading(m: nat)
    // Invocations: about to ask for lock n with the n before it held, or having asked; copying; releasing, n still held
    | Locking(n: nat)
    | Awaiting(n: nat)
    | Copying(j: nat, copy: map<nat, Header>)
    | Releasing(n: nat, copy: map<nat, Header>)

  /** A thread, and how many stubs it is inside of. */
  datatype Thread = Thread(pc: Pc, depth: nat)

  /** The fields of one method. The history is the operations completed on it, in order. */
  datatype Cell = Cell(zero: Reply, args: seq<Call>, config: Config, history: seq<Event>)

  /** The invocations map holds slices, so a copy of it shares their arrays. */
  datatype State = State(
    threads: seq<Thread>,
    locks: seq<RWMutex>,
    cells: seq<Cell>,
    invocations: map<nat, Header>,
    heap: seq<seq<Call>>,
    grow: nat -> nat)

  // ---------- Locks held and wanted ----------

  /** What a thread is to a lock. */
  datatype Role = Outside | Announced | Holder | Arrived | Reader

  function RoleAt(p: Pc, l: nat): Role {
    match p
    case AwaitMethod(m, _) => if l == m + 1 then Announced else Outside
    case Entered(m, _) => if l == m + 1 then Holder else Outside
    case Indexed(m, _, _, _) => if l == m + 1 then Holder else Outside
    case Appended(m, _, _, _) => if l == m + 1 then Holder else Outside
    case LockShared(m, _, _, _) => if l == m + 1 then Holder else Outside
    case AwaitShared(m, _, _, _) => if l == m + 1 then Holder else if l == 0 then Announced else Outside
    case Recording(m, _, _, _) => if l == m + 1 || l == 0 then Holder else Outside
    case Recorded(m, _, _, _) => if l == m + 1 || l == 0 then Holder else Outside
    case UnlockMethod(m, _, _, _) => if l == m + 1 then Holder else Outside
    case AwaitChange(m, _) => if l == m + 1 then Announced else Outside
    case Changing(m, _) => if l == m + 1 then Holder else Outside
    case UnlockChange(m) => if l == m + 1 then Holder else Outside
    case AwaitRead(m) => if l == m + 1 then Arrived else Outside
    case Reading(m) => if l == m + 1 then Reader else Outside
    case Locking(n) => if l < n then Reader else Outside
    case Awaiting(n) => if l < n then Reader else if l == n then Arrived else Outside
    case Copying(_, _) => if l < LOCKS then Reader else Outside
    case Releasing(n, _) => if l < n then Reader else Outside
    case _ => Outside
  }

  predicate InRange(p: Pc) {
    match p
    case Idle => true
    case Locking(n) => n < LOCKS
    case Awaiting(n) => n < LOCKS
    case Copying(j, _) => j <= METHODS
    case Releasing(n, _) => n <= LOCKS
    case _ => p.m < METHODS
  }

  predicate WellFormed(s: State) {
    |s.locks| == LOCKS && |s.cells| == METHODS && forall t :: 0 <= t < |s.threads| ==> InRange(s.threads[t].pc)
  }

  // ---------- Steps ----------

  datatype Operation =
    | DoCall(m: nat, arg: Call)
    | DoChange(m: nat, change: Change)
    | DoRead(m: nat)
    | DoInvocations

  datatype Action = Begin(t: nat, op: Operation) | Advance(t: nat) | StubReturns(t: nat)

  predicate CanAdvance(s: State, t: nat)
    requires WellFormed(s)
  {
    && t < |s.threads|
    && match s.threads[t].pc
       case Idle => false
       case LockMethod(m, _) => s.locks[m + 1].NoWriter()
       case LockChange(m, _) => s.locks[m + 1].NoWriter()
       case LockShared(_, _, _, _) => s.locks[0].NoWriter()
       case AwaitMethod(m, _) => s.locks[m + 1].readers == {}
       case AwaitChange(m, _) => s.locks[m + 1].readers == {}
       case AwaitShared(_, _, _, _) => s.locks[0].readers == {}
       case AwaitRead(m) => t in s.locks[m + 1].readers
       case Awaiting(n) => t in s.locks[n].readers
       case _ => true
  }

  function SetPc(s: State, t: nat, p: Pc): State
    requires t < |s.threads|
  {
    s.(threads := s.threads[t := s.threads[t].(pc := p)])
  }

  function SetLock(s: State, l: nat, rw: RWMutex): State
    requires l < |s.locks|
  {
    s.(locks := s.locks[l := rw])
  }

  function SetCell(s: State, m: nat, c: Cell): State
    requires m < |s.cells|
  {
    s.(cells := s.cells[m := c])
  }

  /** The slice recorded for a method; without a key, an empty one that has no array. */
  function Current(s: State, m: nat): Header {
    if m in s.invocations then s.invocations[m] else Header(|s.heap|, 0)
  }

  /** The invocations recorded for a method; a method without calls has no key. */
  function Entry(s: State, m: nat): seq<Call> {
    View(s.heap, Current(s, m))
  }

  /** recordInvocation, inside the shared mutex. */
  function Record(s: State, m: nat, a: Call): State {
    var (heap, h) := Push(s.heap, s.grow, Current(s, m), a, Activate);
    s.(invocations := s.invocations[m := h], heap := heap)
  }

  /** One thread's next step. */
  function Step(s: State, t: nat): State
    requires WellFormed(s) && CanAdvance(s, t)
  {
    var p := s.threads[t].pc;
    match p
    case LockMethod(m, a) => SetPc(SetLock(s, m + 1, s.locks[m + 1].Announce(t)), t, AwaitMethod(m, a))
    case AwaitMethod(m, a) => SetPc(SetLock(s, m + 1, s.locks[m + 1].Take(t)), t, Entered(m, a))
    case Entered(m, a) =>
      var c := s.cells[m];
      SetPc(s, t, Indexed(m, a, |c.args|, Specific(c.config, |c.args|)))
    case Indexed(m, a, k, specific) =>
      var c := s.cells[m];
      SetPc(SetCell(s, m, c.(args := c.args + [a])), t, Appended(m, a, k, specific))
    case Appended(m, a, k, specific) =>
      SetPc(s, t, LockShared(m, a, k, Choose(s.cells[m].config, specific)))
    case LockShared(m, a, k, answer) =>
      SetPc(SetLock(s, 0, s.locks[0].Announce(t)), t, AwaitShared(m, a, k, answer))
    case AwaitShared(m, a, k, answer) => SetPc(SetLock(s, 0, s.locks[0].Take(t)), t, Recording(m, a, k, answer))
    case Recording(m, a, k, answer) =>
      SetPc(Record(s, m, a), t, Recorded(m, a, k, answer))
    case Recorded(m, a, k, answer) => SetPc(SetLock(s, 0, s.locks[0].Release()), t, UnlockMethod(m, a, k, answer))
    case UnlockMethod(m, a, k, answer) =>
      var c := s.cells[m];
      var unlocked := SetLock(s, m + 1, s.locks[m + 1].Release());
      var called := SetCell(unlocked, m, c.(history := c.history + [Called(a, answer)]));
      var depth := s.threads[t].depth + if answer.RunStub? then 1 else 0;
      called.(threads := s.threads[t := Thread(Idle, depth)])
    case LockChange(m, change) => SetPc(SetLock(s, m + 1, s.locks[m + 1].Announce(t)), t, AwaitChange(m, change))
    case AwaitChange(m, change) => SetPc(SetLock(s, m + 1, s.locks[m + 1].Take(t)), t, Changing(m, change))
    case Changing(m, change) =>
      var c := s.cells[m];
      var changed := c.(config := Apply(c.config, change), history := c.history + [Changed(change)]);
      SetPc(SetCell(s, m, changed), t, UnlockChange(m))
    case UnlockChange(m) => SetPc(SetLock(s, m + 1, s.locks[m + 1].Release()), t, Idle)
    case LockRead(m) => SetPc(SetLock(s, m + 1, s.locks[m + 1].Arrive(t)), t, AwaitRead(m))
    case AwaitRead(m) => SetPc(s, t, Reading(m))
    case Reading(m) => SetPc(SetLock(s, m + 1, s.locks[m + 1].Leave(t)), t, Idle)
    case Locking(n) => SetPc(SetLock(s, n, s.locks[n].Arrive(t)), t, Awaiting(n))
    case Awaiting(n) => SetPc(s, t, if n + 1 == LOCKS then Copying(0, map[]) else Locking(n + 1))
    case Copying(j, copy) =>
      if j == METHODS then SetPc(s, t, Releasing(LOCKS, copy))
      else SetPc(s, t, Copying(j + 1, if j in s.invocations then copy[j := s.invocations[j]] else copy))
    case Releasing(n, copy) =>
      if n == 0 then SetPc(s, t, Idle)
      else SetPc(SetLock(s, n - 1, s.locks[n - 1].Leave(t)), t, Releasing(n - 1, copy))
  }

  predicate Valid(op: Operation) {
    !op.DoInvocations? ==> op.m < METHODS
  }

  function FirstPc(op: Operation): Pc {
    match op
    case DoCall(m, a) => LockMethod(m, a)
    case DoChange(m, change) => LockChange(m, change)
    case DoRead(m) => LockRead(m)
    case DoInvocations => Locking(0)
  }

  predicate Possible(s: State, a: Action)
    requires WellFormed(s)
  {
    match a
    case Begin(t, op) => t < |s.threads| && s.threads[t].pc.Idle? && Valid(op)
    case Advance(t) => CanAdvance(s, t)
    case StubReturns(t) => t < |s.threads| && s.threads[t].pc.Idle? && s.threads[t].depth > 0
  }

  function Next(s: State, a: Action): State
    requires WellFormed(s) && Possible(s, a)
  {
    match a
    case Begin(t, op) => SetPc(s, t, FirstPc(op))
    case Advance(t) => Step(s, t)
    case StubReturns(t) => s.(threads := s.threads[t := Thread(Idle, s.threads[t].depth - 1)])
  }

  /** A new fake, before any thread has touched it. */
  function Start(zeros: seq<Reply>, grow: nat -> nat, threads: nat): State
    requires |zeros| == METHODS
  {
    State(
      seq(threads, _ => Thread(Idle, 0)),
      seq(LOCKS, _ => UNLOCKED),
      seq(METHODS, i requires 0 <= i < METHODS => Cell(zeros[i], [], Config(None, zeros[i], map[]), [])),
      map[],
      [],
      grow)
  }

  // ---------- The invariant ----------

  /** Readers and a writer exclude each other, readers wait only for a writer, and every thread is to the lock what
      its own state says. */
  ghost predicate LockOk(s: State, l: nat)
    requires l < |s.locks|
  {
    var rw := s.locks[l];
    && (rw.writer.Some? ==> rw.writer.value < |s.threads| && rw.pending.None? && rw.readers == {})
    && (rw.pending.Some? ==> rw.pending.value < |s.threads|)
    && (rw.waiting != {} ==> !rw.NoWriter())
    && (forall r :: r in rw.readers || r in rw.waiting ==> r < |s.threads|)
    && (forall t :: 0 <= t < |s.threads| ==> RoleOk(rw, t, RoleAt(s.threads[t].pc, l)))
  }

  ghost predicate RoleOk(rw: RWMutex, t: nat, role: Role) {
    && (role.Holder? <==> rw.writer == Some(t))
    && (role.Announced? <==> rw.pending == Some(t))
    && (role.Reader? ==> t in rw.readers && t !in rw.waiting)
    && (role.Arrived? ==> (t in rw.readers <==> t !in rw.waiting))
    && (t in rw.readers || t in rw.waiting ==> role.Reader? || role.Arrived?)
  }

  /** The thread inside the critical section of a method, if any. */
  function WriterPc(s: State, m: nat): Pc
    requires m + 1 < |s.locks|
  {
    var w := s.locks[m + 1].writer;
    if w.Some? && w.value < |s.threads| then s.threads[w.value].pc else Idle
  }

  /** A method's two records, its configuration and its history, given where its writer is. */
  ghost predicate CellOk(c: Cell, entry: seq<Call>, p: Pc) {
    var done := ArgsOf(c.history);
    && c.config == ConfigAfter(c.zero, c.history) && Legal(c.zero, c.history)
    && match p
       case Indexed(_, _, k, specific) =>
         c.args == done && entry == done && k == |done| && specific == Specific(c.config, k)
       case Appended(_, a, k, specific) =>
         c.args == done + [a] && entry == done && k == |done| && specific == Specific(c.config, k)
       case LockShared(_, a, k, answer) =>
         c.args == done + [a] && entry == done && k == |done| && answer == Choose(c.config, Specific(c.config, k))
       case AwaitShared(_, a, k, answer) =>
         c.args == done + [a] && entry == done && k == |done| && answer == Choose(c.config, Specific(c.config, k))
       case Recording(_, a, k, answer) =>
         c.args == done + [a] && entry == done && k == |done| && answer == Choose(c.config, Specific(c.config, k))
       case Recorded(_, a, k, answer) =>
         c.args == done + [a] && entry == done + [a] && k == |done| && answer == Choose(c.config, Specific(c.config, k))
       case UnlockMethod(_, a, k, answer) =>
         c.args == done + [a] && entry == done + [a] && k == |done| && answer == Choose(c.config, Specific(c.config, k))
       case _ => c.args == done && entry == done
  }

  /** A copy in progress agrees with the map on the keys already visited. */
  ghost predicate CopyOk(s: State, p: Pc) {
    p.Copying? ==> p.copy == map m | m in s.invocations && m < p.j :: s.invocations[m]
  }

  /** Every recorded slice shows something, in an array of its own. */
  ghost predicate SlicesOk(s: State) {
    && (forall m :: m in s.invocations ==>
          m < METHODS && InBounds(s.heap, s.invocations[m]) && s.invocations[m].len > 0)
    && (forall m, n :: m in s.invocations && n in s.invocations && m != n ==>
          s.invocations[m].id != s.invocations[n].id)
  }

  ghost predicate Inv(s: State) {
    && WellFormed(s)
    && (forall l :: 0 <= l < LOCKS ==> LockOk(s, l))
    && (forall m :: 0 <= m < METHODS ==> CellOk(s.cells[m], Entry(s, m), WriterPc(s, m)))
    && (forall t :: 0 <= t < |s.threads| ==> CopyOk(s, s.threads[t].pc))
    && SlicesOk(s)
  }

  lemma StartInv(zeros: seq<Reply>, grow: nat -> nat, threads: nat)
    requires |zeros| == METHODS
    ensures Inv(Start(zeros, grow, threads))
  {
  }

  // ---------- What a step keeps: locks ----------

  /** How a step of thread t may treat a lock: leave it alone, or take t from one role to the next. */
  ghost predicate RoleMove(rw: RWMutex, rw': RWMutex, t: nat, role: Role, role': Role) {
    || (rw' == rw && role' == role)
    || (role.Outside? && role'.Announced? && rw.NoWriter() && rw' == rw.Announce(t))
    || (role.Announced? && role'.Holder? && rw.readers == {} && rw' == rw.Take(t))
    || (role.Holder? && role'.Outside? && rw' == rw.Release())
    || (role.Outside? && role'.Arrived? && rw' == rw.Arrive(t))
    || (role.Arrived? && role'.Reader? && t in rw.readers && rw' == rw)
    || (role.Reader? && role'.Outside? && rw' == rw.Leave(t))
  }

  ghost predicate LockMove(s: State, s': State, t: nat, l: nat)
    requires l < |s.locks| == |s'.locks| && t < |s.threads| == |s'.threads|
  {
    RoleMove(s.locks[l], s'.locks[l], t, RoleAt(s.threads[t].pc, l), RoleAt(s'.threads[t].pc, l))
  }

  lemma LockMoveKeeps(s: State, s': State, t: nat, l: nat)
    requires l < |s.locks| == |s'.locks| && t < |s.threads| && LockOk(s, l)
    requires |s'.threads| == |s.threads| && s'.threads == s.threads[t := s'.threads[t]]
    requires LockMove(s, s', t, l)
    ensures LockOk(s', l)
  {
  }

  /** Inside a call of some method. */
  predicate Calling(p: Pc) {
    || p.LockMethod? || p.AwaitMethod? || p.Entered? || p.Indexed? || p.Appended? || p.LockShared? || p.AwaitShared?
    || p.Recording? || p.Recorded? || p.UnlockMethod?
  }

  /** Inside Invocations. */
  predicate InInvocations(p: Pc) {
    p.Locking? || p.Awaiting? || p.Copying? || p.Releasing?
  }

  ghost predicate StepIsLockMove(s: State, t: nat, l: nat)
    requires WellFormed(s) && CanAdvance(s, t) && l < LOCKS
  {
    var s' := Step(s, t);
    && WellFormed(s') && s'.grow == s.grow && |s'.threads| == |s.threads| && s'.threads == s.threads[t := s'.threads[t]]
    && LockMove(s, s', t, l)
  }

  lemma CallTakesLocks(s: State, t: nat, l: nat)
    requires WellFormed(s) && CanAdvance(s, t) && l < LOCKS && LockOk(s, l)
    requires var p := s.threads[t].pc; p.LockMethod? || p.AwaitMethod? || p.LockShared? || p.AwaitShared?
    ensures StepIsLockMove(s, t, l)
  {
  }

  lemma CallReleasesLocks(s: State, t: nat, l: nat)
    requires WellFormed(s) && CanAdvance(s, t) && l < LOCKS && LockOk(s, l)
    requires s.threads[t].pc.Recorded? || s.threads[t].pc.UnlockMethod?
    ensures StepIsLockMove(s, t, l)
  {
  }

  lemma CallHoldsLocks(s: State, t: nat, l: nat)
    requires WellFormed(s) && CanAdvance(s, t) && l < LOCKS
    requires var p := s.threads[t].pc; p.Entered? || p.Indexed? || p.Appended? || p.Recording?
    ensures StepIsLockMove(s, t, l)
  {
    assert Step(s, t).locks == s.locks;
  }

  lemma InvocationsTakesLocks(s: State, t: nat, l: nat)
    requires WellFormed(s) && CanAdvance(s, t) && l < LOCKS && LockOk(s, l)
    requires s.threads[t].pc.Locking? || s.threads[t].pc.Awaiting?
    ensures StepIsLockMove(s, t, l)
  {
  }

  lemma InvocationsReleasesLocks(s: State, t: nat, l: nat)
    requires WellFormed(s) && CanAdvance(s, t) && l < LOCKS && LockOk(s, l)
    requires s.threads[t].pc.Copying? || s.threads[t].pc.Releasing?
    ensures StepIsLockMove(s, t, l)
  {
  }

  lemma ChangeMovesLocks(s: State, t: nat, l: nat)
    requires WellFormed(s) && CanAdvance(s, t) && l < LOCKS && LockOk(s, l)
    requires var p := s.threads[t].pc; p.LockChange? || p.AwaitChange? || p.Changing? || p.UnlockChange?
    ensures StepIsLockMove(s, t, l)
  {
  }

  lemma ReadMovesLocks(s: State, t: nat, l: nat)
    requires WellFormed(s) && CanAdvance(s, t) && l < LOCKS && LockOk(s, l)
    requires var p := s.threads[t].pc; p.LockRead? || p.AwaitRead? || p.Reading?
    ensures StepIsLockMove(s, t, l)
  {
  }

  lemma StepMovesLocks(s: State, t: nat, l: nat)
    requires WellFormed(s) && CanAdvance(s, t) && l < LOCKS && LockOk(s, l)
    ensures StepIsLockMove(s, t, l)
  {
    var p := s.threads[t].pc;
    if p.LockMethod? || p.AwaitMethod? || p.LockShared? || p.AwaitShared? {
      CallTakesLocks(s, t, l);
    } else if p.Recorded? || p.UnlockMethod? {
      CallReleasesLocks(s, t, l);
    } else if Calling(p) {
      CallHoldsLocks(s, t, l);
    } else if p.Locking? || p.Awaiting? {
      InvocationsTakesLocks(s, t, l);
    } else if InInvocations(p) {
      InvocationsReleasesLocks(s, t, l);
    } else if p.LockRead? || p.AwaitRead? || p.Reading? {
      ReadMovesLocks(s, t, l);
    } else {
      ChangeMovesLocks(s, t, l);
    }
  }

  // ---------- What a step keeps: records ----------

  /** A recorded call lengthens its method's record. */
  lemma RecordKept(s: State, m: nat, a: Call)
    requires SlicesOk(s) && m < METHODS
    ensures SlicesOk(Record(s, m, a)) && Entry(Record(s, m, a), m) == Entry(s, m) + [a]
  {
    var h := Current(s, m);
    PushShows(s.heap, s.grow, h, a, Activate);
    forall n | n in s.invocations && n != m ensures InBounds(Record(s, m, a).heap, s.invocations[n]) {
      PushKeeps(s.heap, s.grow, h, a, Activate, s.invocations[n]);
    }
  }

  lemma RecordBeside(s: State, m: nat, a: Call, n: nat)
    requires SlicesOk(s) && n != m
    ensures Entry(Record(s, m, a), n) == Entry(s, n)
  {
    if n in s.invocations {
      PushKeeps(s.heap, s.grow, Current(s, m), a, Activate, s.invocations[n]);
    }
  }

  /** The method a thread is calling or configuring. */
  predicate WorksOn(p: Pc, m: nat) {
    !p.Idle? && !p.LockRead? && !p.AwaitRead? && !p.Reading? && !InInvocations(p) && p.m == m
  }

  /** Only one step of a call touches the invocations. */
  lemma OnlyCallsRecord(s: State, t: nat)
    requires WellFormed(s) && CanAdvance(s, t) && !s.threads[t].pc.Recording?
    ensures Step(s, t).invocations == s.invocations && Step(s, t).heap == s.heap
  {
  }

  lemma StepSlicesOk(s: State, t: nat)
    requires WellFormed(s) && SlicesOk(s) && CanAdvance(s, t)
    ensures SlicesOk(Step(s, t))
  {
    var p := s.threads[t].pc;
    if p.Recording? {
      RecordKept(s, p.m, p.arg);
    } else {
      OnlyCallsRecord(s, t);
    }
  }

  lemma StepEntry(s: State, t: nat, m: nat)
    requires WellFormed(s) && SlicesOk(s) && CanAdvance(s, t) && m < METHODS
    ensures var p := s.threads[t].pc;
            Entry(Step(s, t), m) == Entry(s, m) + if p.Recording? && p.m == m then [p.arg] else []
  {
    var p := s.threads[t].pc;
    if p.Recording? {
      RecordKept(s, p.m, p.arg);
      if p.m != m {
        RecordBeside(s, p.m, p.arg, m);
      }
    } else {
      OnlyCallsRecord(s, t);
    }
  }

  /** A step on one method leaves the others' cells, and their writers, where they were. */
  lemma OtherCellsKept(s: State, t: nat, m: nat)
    requires WellFormed(s) && CanAdvance(s, t) && m < METHODS && !WorksOn(s.threads[t].pc, m)
    ensures Step(s, t).cells[m] == s.cells[m]
  {
  }

  lemma OtherWritersKept(s: State, t: nat, m: nat)
    requires WellFormed(s) && CanAdvance(s, t) && m < METHODS && !WorksOn(s.threads[t].pc, m)
    requires LockOk(s, m + 1) && StepIsLockMove(s, t, m + 1)
    ensures WriterPc(Step(s, t), m) == WriterPc(s, m)
  {
    assert !RoleAt(s.threads[t].pc, m + 1).Holder? && !RoleAt(s.threads[t].pc, m + 1).Announced?;
    assert Step(s, t).locks[m + 1].writer == s.locks[m + 1].writer;
  }

  lemma ChangedCellKept(s: State, t: nat, m: nat)
    requires WellFormed(s) && CanAdvance(s, t) && m < METHODS && WorksOn(s.threads[t].pc, m)
    requires LockOk(s, m + 1) && StepIsLockMove(s, t, m + 1)
    requires var p := s.threads[t].pc; p.LockChange? || p.AwaitChange? || p.Changing? || p.UnlockChange?
    requires CellOk(s.cells[m], Entry(s, m), WriterPc(s, m))
    ensures CellOk(Step(s, t).cells[m], Entry(s, m), WriterPc(Step(s, t), m))
  {
    var s' := Step(s, t);
    var c := s.cells[m];
    var p := s.threads[t].pc;
    if p.LockChange? {
      assert WriterPc(s, m) == Idle && WriterPc(s', m) == Idle && s'.cells[m] == c;
    } else if p.AwaitChange? {
      assert WriterPc(s, m) == Idle && WriterPc(s', m) == Changing(m, p.change) && s'.cells[m] == c;
    } else if p.Changing? {
      assert WriterPc(s, m) == p && WriterPc(s', m) == UnlockChange(m);
      Extend(c.zero, c.history, Changed(p.change));
    } else {
      assert WriterPc(s, m) == p && WriterPc(s', m) == Idle && s'.cells[m] == c;
    }
  }

  lemma ReturnKept(s: State, t: nat, m: nat)
    requires WellFormed(s) && CanAdvance(s, t) && m < METHODS && WorksOn(s.threads[t].pc, m)
    requires LockOk(s, m + 1) && StepIsLockMove(s, t, m + 1)
    requires s.threads[t].pc.UnlockMethod?
    requires CellOk(s.cells[m], Entry(s, m), WriterPc(s, m))
    ensures CellOk(Step(s, t).cells[m], Entry(s, m), WriterPc(Step(s, t), m))
  {
    var c := s.cells[m];
    var p := s.threads[t].pc;
    assert WriterPc(s, m) == p && WriterPc(Step(s, t), m) == Idle;
    Extend(c.zero, c.history, Called(p.arg, p.answer));
    ChooseIsSpec(c.zero, c.history, p.k);
  }

  lemma CalledCellKept(s: State, t: nat, m: nat)
    requires WellFormed(s) && CanAdvance(s, t) && m < METHODS && WorksOn(s.threads[t].pc, m)
    requires LockOk(s, m + 1) && StepIsLockMove(s, t, m + 1)
    requires Calling(s.threads[t].pc) && !s.threads[t].pc.UnlockMethod?
    requires CellOk(s.cells[m], Entry(s, m), WriterPc(s, m))
    ensures var p := s.threads[t].pc;
            CellOk(Step(s, t).cells[m], Entry(s, m) + (if p.Recording? then [p.arg] else []), WriterPc(Step(s, t), m))
  {
    var s' := Step(s, t);
    var p := s.threads[t].pc;
    if p.LockMethod? {
      assert WriterPc(s, m) == WriterPc(s', m) == Idle;
    } else if p.AwaitMethod? {
      assert WriterPc(s, m) == Idle && WriterPc(s', m) == s'.threads[t].pc;
    } else {
      assert WriterPc(s, m) == p && WriterPc(s', m) == s'.threads[t].pc;
    }
  }

  lemma CellsKept(s: State, t: nat, m: nat)
    requires WellFormed(s) && SlicesOk(s) && CanAdvance(s, t) && m < METHODS
    requires LockOk(s, m + 1) && CellOk(s.cells[m], Entry(s, m), WriterPc(s, m))
    ensures var s' := Step(s, t);
            WellFormed(s') && CellOk(s'.cells[m], Entry(s', m), WriterPc(s', m))
  {
    var p := s.threads[t].pc;
    StepMovesLocks(s, t, m + 1);
    StepEntry(s, t, m);
    if !WorksOn(p, m) {
      OtherCellsKept(s, t, m);
      OtherWritersKept(s, t, m);
    } else if p.LockChange? || p.AwaitChange? || p.Changing? || p.UnlockChange? {
      ChangedCellKept(s, t, m);
    } else if p.UnlockMethod? {
      ReturnKept(s, t, m);
    } else {
      CalledCellKept(s, t, m);
    }
  }

  lemma CopiesKept(s: State, t: nat, u: nat)
    requires WellFormed(s) && CanAdvance(s, t) && u < |s.threads| && StepIsLockMove(s, t, 0)
    requires LockOk(s, 0) && CopyOk(s, s.threads[u].pc)
    ensures CopyOk(Step(s, t), Step(s, t).threads[u].pc)
  {
    var s' := Step(s, t);
    var p := s.threads[u].pc;
    if s'.threads[u].pc.Copying? {
      if t == u && p.Awaiting? {
        assert s'.threads[u].pc.copy == map[];
      } else {
        assert RoleAt(p, 0).Reader? && p.Copying?;
        OnlyCallsRecord(s, t);
      }
    }
  }

  lemma StepKeeps(s: State, t: nat)
    requires Inv(s) && CanAdvance(s, t)
    ensures Inv(Step(s, t))
  {
    var s' := Step(s, t);
    assert LockOk(s, 0);
    StepMovesLocks(s, t, 0);
    forall l | 0 <= l < LOCKS ensures LockOk(s', l) {
      assert LockOk(s, l);
      StepMovesLocks(s, t, l);
      LockMoveKeeps(s, s', t, l);
    }
    forall m | 0 <= m < METHODS ensures CellOk(s'.cells[m], Entry(s', m), WriterPc(s', m)) {
      CellsKept(s, t, m);
    }
    forall u | 0 <= u < |s'.threads| ensures CopyOk(s', s'.threads[u].pc) {
      CopiesKept(s, t, u);
    }
    StepSlicesOk(s, t);
  }

  lemma BeginKeeps(s: State, a: Action)
    requires Inv(s) && Possible(s, a) && !a.Advance?
    ensures Inv(Next(s, a))
  {
    var s' := Next(s, a);
    forall l | 0 <= l < LOCKS ensures LockOk(s', l) {
      LockMoveKeeps(s, s', a.t, l);
    }
    forall m | 0 <= m < METHODS ensures WriterPc(s', m) == WriterPc(s, m) && Entry(s', m) == Entry(s, m) {
      assert LockOk(s, m + 1);
    }
    forall u | 0 <= u < |s'.threads| ensures CopyOk(s', s'.threads[u].pc) {
      assert CopyOk(s, s.threads[u].pc);
    }
  }

  // ---------- Runs ----------

  ghost predicate PossibleRun(s: State, run: seq<Action>)
    decreases |run|
  {
    WellFormed(s) &&
    (run == [] || (Possible(s, run[0]) && PossibleRun(Next(s, run[0]), run[1..])))
  }

  ghost function After(s: State, run: seq<Action>): (r: State)
    requires PossibleRun(s, run)
    ensures WellFormed(r)
    decreases |run|
  {
    if run == [] then s else After(Next(s, run[0]), run[1..])
  }

  lemma NextKeeps(s: State, a: Action)
    requires Inv(s) && Possible(s, a)
    ensures Inv(Next(s, a)) && |Next(s, a).threads| == |s.threads| && Next(s, a).grow == s.grow
  {
    if a.Advance? {
      StepKeeps(s, a.t);
      assert LockOk(s, 0);
      StepMovesLocks(s, a.t, 0);
    } else {
      BeginKeeps(s, a);
    }
  }

  lemma {:induction false} RunKeeps(s: State, run: seq<Action>)
    requires Inv(s) && PossibleRun(s, run)
    ensures Inv(After(s, run)) && |After(s, run).threads| == |s.threads| && After(s, run).grow == s.grow
    decreases |run|
  {
    if run != [] {
      NextKeeps(s, run[0]);
      RunKeeps(Next(s, run[0]), run[1..]);
    }
  }

  ghost predicate LeadsTo(zeros: seq<Reply>, threads: nat, run: seq<Action>, s: State) {
    && |zeros| == METHODS
    && var start := Start(zeros, s.grow, threads);
       PossibleRun(start, run) && s == After(start, run)
  }

  /** Some interleaving of some threads on a new fake leads here. */
  ghost predicate Reachable(s: State) {
    WellFormed(s) && exists zeros: seq<Reply>, threads: nat, run: seq<Action> :: LeadsTo(zeros, threads, run, s)
  }

  lemma ReachableInv(s: State)
    requires Reachable(s)
    ensures Inv(s)
  {
    var zeros: seq<Reply>, threads: nat, run: seq<Action> :| LeadsTo(zeros, threads, run, s);
    StartInv(zeros, s.grow, threads);
    RunKeeps(Start(zeros, s.grow, threads), run);
  }

  lemma {:induction false} RunExtends(s: State, run: seq<Action>, a: Action)
    requires Inv(s) && PossibleRun(s, run) && Possible(After(s, run), a)
    ensures PossibleRun(s, run + [a]) && After(s, run + [a]) == Next(After(s, run), a)
    decreases |run|
  {
    if run == [] {
      NextKeeps(s, a);
      assert (run + [a])[1..] == [];
    } else {
      NextKeeps(s, run[0]);
      RunExtends(Next(s, run[0]), run[1..], a);
      assert (run + [a])[1..] == run[1..] + [a];
    }
  }

  lemma ReachNext(s: State, a: Action)
    requires Reachable(s) && Possible(s, a)
    ensures Reachable(Next(s, a))
  {
    var zeros: seq<Reply>, threads: nat, run: seq<Action> :| LeadsTo(zeros, threads, run, s);
    StartInv(zeros, s.grow, threads);
    RunExtends(Start(zeros, s.grow, threads), run, a);
    ReachableInv(s);
    NextKeeps(s, a);
    assert LeadsTo(zeros, threads, run + [a], Next(s, a));
  }

  /** In every interleaving, whenever a method's mutex is not write-held, its two records hold the same arguments in
      the same order, and they are those of the calls completed on it; and every one of those calls got the answer
      the configuration and calls before it demand, numbered in the order of the mutex. */
  lemma RecordsAgree(s: State, m: nat)
    requires Reachable(s) && m < METHODS && s.locks[m + 1].writer.None?
    ensures var c := s.cells[m];
            && Entry(s, m) == c.args == ArgsOf(c.history)
            && Legal(c.zero, c.history) && c.config == ConfigAfter(c.zero, c.history)
  {
    ReachableInv(s);
    assert CellOk(s.cells[m], Entry(s, m), WriterPc(s, m));
  }

  /** Concurrent calls get distinct, consecutive numbers: a call leaving its critical section has the number of
      calls completed before it, stands at that place in the record, and no other thread is inside with it. */
  lemma CallsAreNumbered(s: State, t: nat)
    requires Reachable(s) && t < |s.threads| && s.threads[t].pc.UnlockMethod?
    ensures var p := s.threads[t].pc;
            var c, c' := s.cells[p.m], Step(s, t).cells[p.m];
            && p.k == |ArgsOf(c.history)| && |c.args| == p.k + 1 && c.args[p.k] == p.arg
            && p.answer == SpecAnswer(c.zero, c.history, p.k)
            && c'.history == c.history + [Called(p.arg, p.answer)]
            && forall u :: 0 <= u < |s.threads| && u != t ==> !RoleAt(s.threads[u].pc, p.m + 1).Holder?
  {
    ReachableInv(s);
    var p := s.threads[t].pc;
    assert LockOk(s, p.m + 1);
    assert WriterPc(s, p.m) == p;
    assert CellOk(s.cells[p.m], Entry(s, p.m), WriterPc(s, p.m));
    ChooseIsSpec(s.cells[p.m].zero, s.cells[p.m].history, p.k);
  }

  /** The map Invocations returns shows the record of all nine methods at one instant, the end of its copying, when
      no method is being called; methods never called have no key. */
  lemma SnapshotIsInstant(s: State, t: nat)
    requires Reachable(s) && t < |s.threads| && s.threads[t].pc.Copying? && s.threads[t].pc.j == METHODS
    ensures var copy := s.threads[t].pc.copy;
            && Step(s, t).threads[t].pc == Releasing(LOCKS, copy)
            && (forall m :: 0 <= m < METHODS ==>
                  (m in copy <==> s.cells[m].args != []) && (m in copy ==> View(s.heap, copy[m]) == s.cells[m].args))
            && (forall m :: m in copy ==> m < METHODS)
  {
    ReachableInv(s);
    var copy := s.threads[t].pc.copy;
    assert CopyOk(s, s.threads[t].pc);
    forall m | 0 <= m < METHODS
      ensures (m in copy <==> s.cells[m].args != []) && (m in copy ==> View(s.heap, copy[m]) == s.cells[m].args)
    {
      assert LockOk(s, m + 1);
      assert RoleAt(s.threads[t].pc, m + 1).Reader?;
      assert CellOk(s.cells[m], Entry(s, m), WriterPc(s, m));
    }
  }

  // ---------- Snapshots share arrays with the fake ----------

  /** No record in the slice's array is shorter than the slice, so appending to it writes past the slice. */
  ghost predicate Settled(s: State, h: Header) {
    && InBounds(s.heap, h)
    && forall m :: m in s.invocations && s.invocations[m].id == h.id ==> h.len <= s.invocations[m].len
  }

  lemma RecordKeepsView(s: State, m: nat, a: Call, h: Header)
    requires Settled(s, h)
    ensures Settled(Record(s, m, a), h) && View(Record(s, m, a).heap, h) == View(s.heap, h)
  {
    PushShows(s.heap, s.grow, Current(s, m), a, Activate);
    PushKeeps(s.heap, s.grow, Current(s, m), a, Activate, h);
  }

  lemma NextKeepsView(s: State, a: Action, h: Header)
    requires WellFormed(s) && Possible(s, a) && Settled(s, h)
    ensures Settled(Next(s, a), h) && View(Next(s, a).heap, h) == View(s.heap, h)
  {
    if a.Advance? && s.threads[a.t].pc.Recording? {
      RecordKeepsView(s, s.threads[a.t].pc.m, s.threads[a.t].pc.arg, h);
    } else if a.Advance? {
      OnlyCallsRecord(s, a.t);
    }
  }

  lemma {:induction false} RunKeepsView(s: State, run: seq<Action>, h: Header)
    requires PossibleRun(s, run) && Settled(s, h)
    ensures View(After(s, run).heap, h) == View(s.heap, h)
    decreases |run|
  {
    if run != [] {
      NextKeepsView(s, run[0], h);
      RunKeepsView(Next(s, run[0]), run[1..], h);
    }
  }

  /** And it shows them for ever: although calls keep appending to the arrays it shares, nothing the fake's threads
      do afterwards changes what a snapshot shows. */
  lemma SnapshotNeverChanges(s: State, t: nat, run: seq<Action>, m: nat)
    requires Reachable(s) && t < |s.threads| && s.threads[t].pc.Copying? && s.threads[t].pc.j == METHODS
    requires PossibleRun(s, run) && m in s.threads[t].pc.copy
    ensures m < METHODS && View(After(s, run).heap, s.threads[t].pc.copy[m]) == s.cells[m].args
  {
    ReachableInv(s);
    SnapshotIsInstant(s, t);
    var h := s.threads[t].pc.copy[m];
    assert CopyOk(s, s.threads[t].pc) && h == s.invocations[m];
    assert Settled(s, h);
    RunKeepsView(s, run, h);
  }
}
