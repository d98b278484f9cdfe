/**
 When the threads of a FakeDriver come to an end, and when they do not: a call
 takes its method's mutex and then the shared one, Invocations takes the
 shared one first.
 */
module RecorderLiveness {
  import opened Outcomes
  import opened Messages
  import opened RecorderMachine

  // ---------- The two ways to wait for each other ----------

  /** A caller of method m that needs the shared mutex, and an Invocations that holds it and needs the method's. */
  ghost predicate Stuck(s: State, t: nat, u: nat, m: nat) {
    && t < |s.threads| && u < |s.threads|
    && (var p := s.threads[t].pc; (p.LockShared? || p.AwaitShared?) && p.m == m)
    && (s.threads[u].pc == Locking(m + 1) || s.threads[u].pc == Awaiting(m + 1))
  }

  /** In a call, its method's mutex held or announced, the shared one still to be taken. */
  predicate Claims(p: Pc) {
    p.AwaitMethod? || p.Entered? || p.Indexed? || p.Appended? || p.LockShared? || p.AwaitShared?
  }

  predicate TakesLocks(p: Pc) {
    p.Locking? || p.Awaiting?
  }

  /** The call of t has a claim to its method's mutex and the shared one ahead of it. The Invocations of u has the
      shared mutex and not the method's; or it will be let in to the shared one before t can ask for it. */
  ghost predicate Crossed(s: State, t: nat, u: nat)
    requires WellFormed(s)
  {
    && t < |s.threads| && u < |s.threads|
    && Claims(s.threads[t].pc) && TakesLocks(s.threads[u].pc)
    && ((u in s.locks[0].readers && u !in s.locks[s.threads[t].pc.m + 1].readers)
        || (u in s.locks[0].waiting && !s.threads[t].pc.AwaitShared?))
  }

  ghost predicate Doomed(s: State)
    requires WellFormed(s)
  {
    exists t: nat, u: nat :: Crossed(s, t, u)
  }

  ghost predicate AllIdle(s: State) {
    forall t :: 0 <= t < |s.threads| ==> s.threads[t].pc.Idle?
  }

  lemma StuckLocks(s: State, t: nat, u: nat, m: nat)
    requires Inv(s) && Stuck(s, t, u, m)
    ensures m < METHODS && u in s.locks[0].readers && s.locks[m + 1].writer == Some(t) && s.locks[m + 1].readers == {}
  {
    assert RoleAt(s.threads[t].pc, m + 1).Holder? && RoleAt(s.threads[u].pc, 0).Reader?;
    assert LockOk(s, 0) && LockOk(s, m + 1);
  }

  lemma StuckIsDoomed(s: State, t: nat, u: nat, m: nat)
    requires Inv(s) && Stuck(s, t, u, m)
    ensures Doomed(s)
  {
    StuckLocks(s, t, u, m);
    assert Crossed(s, t, u);
  }

  // ---------- What one step does to the others ----------

  lemma OthersStay(s: State, a: Action, u: nat)
    requires Inv(s) && Possible(s, a) && u < |s.threads| && u != a.t
    ensures |Next(s, a).threads| == |s.threads| && Next(s, a).threads[u] == s.threads[u]
  {
    if a.Advance? {
      assert LockOk(s, 0);
      StepMovesLocks(s, a.t, 0);
    }
  }

  /** The claims of a call, and the way of an Invocations, after a step and before it. */
  lemma ClaimsAhead(s: State, t: nat)
    requires WellFormed(s) && CanAdvance(s, t) && Claims(s.threads[t].pc)
    ensures var p, s' := s.threads[t].pc, Step(s, t);
            && |s'.threads| == |s.threads|
            && (!p.AwaitShared? ==> Claims(s'.threads[t].pc) && s'.threads[t].pc.m == p.m)
            && (s'.threads[t].pc.AwaitShared? ==> p.LockShared?)
  {
  }

  lemma WayAhead(s: State, u: nat)
    requires WellFormed(s) && CanAdvance(s, u) && TakesLocks(s.threads[u].pc)
    ensures var p, s' := s.threads[u].pc, Step(s, u);
            && |s'.threads| == |s.threads|
            && (p.Locking? ==> s'.threads[u].pc == Awaiting(p.n))
            && (p.Awaiting? && p.n < METHODS ==> s'.threads[u].pc == Locking(p.n + 1))
            && (p == Awaiting(METHODS) ==> s'.threads[u].pc.Copying?)
  {
  }

  lemma ClaimsBehind(s: State, t: nat)
    requires WellFormed(s) && CanAdvance(s, t)
    ensures var p, s' := s.threads[t].pc, Step(s, t);
            && |s'.threads| == |s.threads|
            && (Claims(s'.threads[t].pc) && !p.LockMethod? ==> Claims(p) && s'.threads[t].pc.m == p.m)
            && (p.AwaitShared? ==> !Claims(s'.threads[t].pc))
  {
  }

  lemma WayBehind(s: State, t: nat)
    requires WellFormed(s) && CanAdvance(s, t)
    ensures |Step(s, t).threads| == |s.threads|
    ensures TakesLocks(Step(s, t).threads[t].pc) ==> TakesLocks(s.threads[t].pc)
  {
  }

  /** Who is let in to a lock by another thread's step: those that wait for it, when its holder unlocks. */
  lemma OthersLetIn(rw: RWMutex, rw': RWMutex, v: nat, role: Role, role': Role, u: nat)
    requires RoleMove(rw, rw', v, role, role') && u != v
    ensures u in rw.readers ==> u in rw'.readers
    ensures u in rw.waiting ==> u in rw'.readers || u in rw'.waiting
    ensures u in rw'.waiting ==> u in rw.waiting
    ensures u in rw'.readers ==> u in rw.readers || (u in rw.waiting && role.Holder?)
  {
  }

  lemma StepLetsIn(s: State, v: nat, u: nat, l: nat)
    requires Inv(s) && CanAdvance(s, v) && u != v && l < LOCKS
    ensures WellFormed(Step(s, v))
    ensures var rw, rw' := s.locks[l], Step(s, v).locks[l];
            && (u in rw.readers ==> u in rw'.readers)
            && (u in rw.waiting ==> u in rw'.readers || u in rw'.waiting)
            && (u in rw'.waiting ==> u in rw.waiting)
            && (u in rw'.readers ==> u in rw.readers || (u in rw.waiting && rw.writer == Some(v)))
  {
    var s' := Step(s, v);
    assert LockOk(s, l);
    StepMovesLocks(s, v, l);
    assert RoleOk(s.locks[l], v, RoleAt(s.threads[v].pc, l));
    OthersLetIn(s.locks[l], s'.locks[l], v, RoleAt(s.threads[v].pc, l), RoleAt(s'.threads[v].pc, l), u);
  }

  // ---------- Crossed for ever ----------

  /** What holds of the two locks while t claims its method's mutex and u is on its way. */
  lemma CrossedRoles(s: State, t: nat, u: nat)
    requires Inv(s) && Crossed(s, t, u)
    ensures var m := s.threads[t].pc.m;
            && m < METHODS && t != u && !s.locks[m + 1].NoWriter() && u !in s.locks[m + 1].readers
            && (s.locks[m + 1].writer.Some? ==> s.locks[m + 1].writer == Some(t))
            && (u in s.locks[0].waiting ==> !s.locks[0].NoWriter())
  {
    var m := s.threads[t].pc.m;
    assert LockOk(s, 0) && LockOk(s, m + 1);
    assert RoleOk(s.locks[m + 1], t, RoleAt(s.threads[t].pc, m + 1));
    assert RoleOk(s.locks[0], u, RoleAt(s.threads[u].pc, 0));
    assert RoleOk(s.locks[m + 1], u, RoleAt(s.threads[u].pc, m + 1));
  }

  lemma CallerStaysCrossed(s: State, t: nat, u: nat)
    requires Inv(s) && Crossed(s, t, u) && CanAdvance(s, t)
    ensures WellFormed(Step(s, t)) && Crossed(Step(s, t), t, u)
  {
    var m := s.threads[t].pc.m;
    CrossedRoles(s, t, u);
    OthersStay(s, Advance(t), u);
    ClaimsAhead(s, t);
    assert LockOk(s, 0) && LockOk(s, m + 1);
    StepMovesLocks(s, t, 0);
    StepMovesLocks(s, t, m + 1);
  }

  lemma InvocationsStaysCrossed(s: State, t: nat, u: nat)
    requires Inv(s) && Crossed(s, t, u) && CanAdvance(s, u)
    ensures WellFormed(Step(s, u)) && Crossed(Step(s, u), t, u)
  {
    var m := s.threads[t].pc.m;
    CrossedRoles(s, t, u);
    OthersStay(s, Advance(u), t);
    WayAhead(s, u);
    assert LockOk(s, 0) && LockOk(s, m + 1);
    StepMovesLocks(s, u, 0);
    StepMovesLocks(s, u, m + 1);
    assert RoleOk(s.locks[0], u, RoleAt(s.threads[u].pc, 0));
    assert RoleOk(s.locks[m + 1], u, RoleAt(s.threads[u].pc, m + 1));
  }

  lemma OtherStaysCrossed(s: State, t: nat, u: nat, a: Action)
    requires Inv(s) && Crossed(s, t, u) && Possible(s, a) && a.t != t && a.t != u
    ensures WellFormed(Next(s, a)) && Crossed(Next(s, a), t, u)
  {
    var m := s.threads[t].pc.m;
    CrossedRoles(s, t, u);
    OthersStay(s, a, t);
    OthersStay(s, a, u);
    if a.Advance? {
      StepLetsIn(s, a.t, u, 0);
      StepLetsIn(s, a.t, u, m + 1);
    }
  }

  lemma CrossedStays(s: State, t: nat, u: nat, a: Action)
    requires Inv(s) && Crossed(s, t, u) && Possible(s, a)
    ensures WellFormed(Next(s, a)) && Crossed(Next(s, a), t, u)
  {
    if a.t == t {
      CallerStaysCrossed(s, t, u);
    } else if a.t == u {
      InvocationsStaysCrossed(s, t, u);
    } else {
      OtherStaysCrossed(s, t, u, a);
    }
  }

  lemma {:induction false} CrossedForEver(s: State, t: nat, u: nat, run: seq<Action>)
    requires Inv(s) && Crossed(s, t, u) && PossibleRun(s, run)
    ensures Crossed(After(s, run), t, u)
    decreases |run|
  {
    if run != [] {
      CrossedStays(s, t, u, run[0]);
      NextKeeps(s, run[0]);
      CrossedForEver(Next(s, run[0]), t, u, run[1..]);
    }
  }

  lemma StuckStays(s: State, t: nat, u: nat, m: nat, a: Action)
    requires Inv(s) && Stuck(s, t, u, m) && Possible(s, a)
    ensures Stuck(Next(s, a), t, u, m)
  {
    StuckLocks(s, t, u, m);
    if a.t != t {
      OthersStay(s, a, t);
    }
    if a.t != u {
      OthersStay(s, a, u);
    } else {
      WayAhead(s, u);
    }
  }

  /** Two threads stuck with each other never get past the locks they need, whatever any thread does. */
  lemma {:induction false} StuckForEver(s: State, t: nat, u: nat, m: nat, run: seq<Action>)
    requires Inv(s) && Stuck(s, t, u, m) && PossibleRun(s, run)
    ensures Inv(After(s, run)) && Stuck(After(s, run), t, u, m)
    decreases |run|
  {
    if run != [] {
      StuckStays(s, t, u, m, run[0]);
      NextKeeps(s, run[0]);
      StuckForEver(Next(s, run[0]), t, u, m, run[1..]);
    }
  }

  // ---------- Who waits for whom ----------

  /** A step by which nobody commits to anything new: all but a call announcing itself to its method's mutex, and an
      Invocations asking for its first lock. */
  predicate Moves(s: State, u: nat)
    requires WellFormed(s)
  {
    CanAdvance(s, u) && !s.threads[u].pc.LockMethod? && s.threads[u].pc != Locking(0)
  }

  ghost predicate NoneMoves(s: State)
    requires WellFormed(s)
  {
    forall u :: !Moves(s, u)
  }

  ghost predicate SomeStuck(s: State) {
    exists t: nat, u: nat, m: nat :: Stuck(s, t, u, m)
  }

  lemma ReaderWaits(s: State, r: nat, l: nat)
    requires Inv(s) && NoneMoves(s) && l < LOCKS && r in s.locks[l].readers
    ensures r < |s.threads| && s.threads[r].pc.Awaiting? && s.threads[r].pc.n > l
    ensures r !in s.locks[s.threads[r].pc.n].readers
  {
    assert LockOk(s, l);
    assert RoleOk(s.locks[l], r, RoleAt(s.threads[r].pc, l));
    assert !Moves(s, r);
  }

  lemma HolderWaits(s: State, w: nat, l: nat)
    requires Inv(s) && NoneMoves(s) && l < LOCKS && s.locks[l].writer == Some(w)
    ensures w < |s.threads| && l > 0
    ensures var p := s.threads[w].pc; (p.LockShared? || p.AwaitShared?) && p.m == l - 1
  {
    assert LockOk(s, l);
    assert RoleOk(s.locks[l], w, RoleAt(s.threads[w].pc, l));
    assert !Moves(s, w);
  }

  lemma PendingWaits(s: State, w: nat, l: nat)
    requires Inv(s) && NoneMoves(s) && l < LOCKS && s.locks[l].pending == Some(w)
    ensures s.locks[l].readers != {}
  {
    assert LockOk(s, l);
    assert RoleOk(s.locks[l], w, RoleAt(s.threads[w].pc, l));
    assert !Moves(s, w);
  }

  /** Follow the waiting from an Invocations to one further along, until a caller blocks it. */
  lemma {:induction false} InvocationsWaits(s: State, u: nat)
    requires Inv(s) && NoneMoves(s) && u < |s.threads|
    requires s.threads[u].pc.Awaiting? && s.threads[u].pc.n > 0 && u !in s.locks[s.threads[u].pc.n].readers
    ensures SomeStuck(s)
    decreases LOCKS - s.threads[u].pc.n
  {
    var n := s.threads[u].pc.n;
    assert LockOk(s, n);
    assert RoleOk(s.locks[n], u, RoleAt(s.threads[u].pc, n));
    assert u in s.locks[n].waiting;
    if s.locks[n].writer.Some? {
      var w := s.locks[n].writer.value;
      HolderWaits(s, w, n);
      assert Stuck(s, w, u, n - 1);
    } else {
      PendingWaits(s, s.locks[n].pending.value, n);
      var r :| r in s.locks[n].readers;
      ReaderWaits(s, r, n);
      InvocationsWaits(s, r);
    }
  }

  lemma NoReaders(s: State, l: nat)
    requires Inv(s) && NoneMoves(s) && !SomeStuck(s) && l < LOCKS
    ensures s.locks[l].readers == {} && s.locks[l].pending.None?
  {
    if r :| r in s.locks[l].readers {
      ReaderWaits(s, r, l);
      InvocationsWaits(s, r);
    }
    if s.locks[l].pending.Some? {
      PendingWaits(s, s.locks[l].pending.value, l);
    }
  }

  lemma AllUnlocked(s: State, l: nat)
    requires Inv(s) && NoneMoves(s) && !SomeStuck(s) && l < LOCKS
    ensures s.locks[l] == UNLOCKED
  {
    NoReaders(s, l);
    assert LockOk(s, l);
    if s.locks[l].writer.Some? {
      var w := s.locks[l].writer.value;
      HolderWaits(s, w, l);
      SharedIsFree(s);
      assert RoleOk(s.locks[0], w, RoleAt(s.threads[w].pc, 0));
      assert CanAdvance(s, w) && Moves(s, w);
    }
  }

  lemma SharedIsFree(s: State)
    requires Inv(s) && NoneMoves(s) && !SomeStuck(s)
    ensures s.locks[0].NoWriter() && LockOk(s, 0)
  {
    assert LockOk(s, 0);
    NoReaders(s, 0);
    if s.locks[0].writer.Some? {
      HolderWaits(s, s.locks[0].writer.value, 0);
    }
  }

  /** When nothing moves and nobody is stuck, nobody has or waits for any lock. */
  lemma OnlyBeginners(s: State, t: nat)
    requires Inv(s) && NoneMoves(s) && !SomeStuck(s) && t < |s.threads|
    ensures var p := s.threads[t].pc; p.Idle? || p.LockMethod? || p == Locking(0)
    ensures !s.threads[t].pc.Idle? ==> CanAdvance(s, t)
  {
    var p := s.threads[t].pc;
    forall l: nat | l < LOCKS ensures s.locks[l] == UNLOCKED && RoleAt(p, l).Outside? {
      AllUnlocked(s, l);
      assert LockOk(s, l);
      assert RoleOk(s.locks[l], t, RoleAt(p, l));
    }
    assert !Moves(s, t);
    if p.Idle? || InInvocations(p) {
      assert RoleAt(p, 0).Outside?;
    } else {
      assert RoleAt(p, p.m + 1).Outside?;
    }
  }

  // ---------- Deadlock ----------

  /** There is one kind of deadlock only: when operations are under way and none can go on, some call and some
      Invocations are stuck with each other. */
  lemma DeadlockIsStuck(s: State, t: nat)
    requires Inv(s) && t < |s.threads| && !s.threads[t].pc.Idle?
    requires forall u :: !CanAdvance(s, u)
    ensures exists t: nat, u: nat, m: nat :: Stuck(s, t, u, m)
  {
    if !SomeStuck(s) {
      OnlyBeginners(s, t);
      assert false;
    }
  }

  /** Callers that keep Invocations apart from calls have no deadlock: configuration and reading operations may run
      beside either, and stubs may call the fake again, since they run with no lock held. */
  lemma NoDeadlock(s: State, t: nat)
    requires Inv(s) && t < |s.threads| && !s.threads[t].pc.Idle?
    requires forall v, u :: 0 <= v < |s.threads| && 0 <= u < |s.threads| ==>
               !(Calling(s.threads[v].pc) && InInvocations(s.threads[u].pc))
    ensures exists u :: CanAdvance(s, u)
  {
    if forall u :: !CanAdvance(s, u) {
      DeadlockIsStuck(s, t);
      assert false;
    }
  }

  // ---------- Coming to an end ----------

  /** How many steps an operation still has to make. */
  function StepsLeft(p: Pc): nat {
    match p
    case Idle => 0
    case LockMethod(_, _) => 10
    case AwaitMethod(_, _) => 9
    case Entered(_, _) => 8
    case Indexed(_, _, _, _) => 7
    case Appended(_, _, _, _) => 6
    case LockShared(_, _, _, _) => 5
    case AwaitShared(_, _, _, _) => 4
    case Recording(_, _, _, _) => 3
    case Recorded(_, _, _, _) => 2
    case UnlockMethod(_, _, _, _) => 1
    case LockChange(_, _) => 4
    case AwaitChange(_, _) => 3
    case Changing(_, _) => 2
    case UnlockChange(_) => 1
    case LockRead(_) => 3
    case AwaitRead(_) => 2
    case Reading(_) => 1
    case Locking(n) => if n < LOCKS then 41 - 2 * n else 0
    case Awaiting(n) => if n < LOCKS then 40 - 2 * n else 0
    case Copying(j, _) => if j <= METHODS then 21 - j else 0
    case Releasing(n, _) => n + 1
  }

  function TotalLeft(ts: seq<Thread>): nat {
    if ts == [] then 0 else StepsLeft(ts[0].pc) + TotalLeft(ts[1..])
  }

  lemma {:induction false} OneStepLess(ts: seq<Thread>, t: nat, th: Thread)
    requires t < |ts| && StepsLeft(th.pc) == StepsLeft(ts[t].pc) - 1
    ensures TotalLeft(ts[t := th]) == TotalLeft(ts) - 1
  {
    if t == 0 {
      assert ts[t := th][1..] == ts[1..];
    } else {
      assert ts[t := th][1..] == ts[1..][t - 1 := th];
      OneStepLess(ts[1..], t - 1, th);
    }
  }

  lemma CallCountsDown(s: State, t: nat)
    requires WellFormed(s) && CanAdvance(s, t) && Calling(s.threads[t].pc)
    ensures |Step(s, t).threads| == |s.threads|
    ensures StepsLeft(Step(s, t).threads[t].pc) == StepsLeft(s.threads[t].pc) - 1
  {
  }

  lemma InvocationsCountsDown(s: State, t: nat)
    requires WellFormed(s) && CanAdvance(s, t) && InInvocations(s.threads[t].pc)
    ensures |Step(s, t).threads| == |s.threads|
    ensures StepsLeft(Step(s, t).threads[t].pc) == StepsLeft(s.threads[t].pc) - 1
  {
  }

  lemma OtherCountsDown(s: State, t: nat)
    requires WellFormed(s) && CanAdvance(s, t) && !Calling(s.threads[t].pc) && !InInvocations(s.threads[t].pc)
    ensures |Step(s, t).threads| == |s.threads|
    ensures StepsLeft(Step(s, t).threads[t].pc) == StepsLeft(s.threads[t].pc) - 1
  {
  }

  lemma AdvanceCountsDown(s: State, t: nat)
    requires Inv(s) && CanAdvance(s, t)
    ensures TotalLeft(Step(s, t).threads) == TotalLeft(s.threads) - 1
  {
    assert LockOk(s, 0);
    StepMovesLocks(s, t, 0);
    if Calling(s.threads[t].pc) {
      CallCountsDown(s, t);
    } else if InInvocations(s.threads[t].pc) {
      InvocationsCountsDown(s, t);
    } else {
      OtherCountsDown(s, t);
    }
    OneStepLess(s.threads, t, Step(s, t).threads[t]);
  }

  ghost predicate OnlyAdvances(run: seq<Action>) {
    forall i :: 0 <= i < |run| ==> run[i].Advance?
  }

  /** Nothing runs for ever on its own: without new operations a run has no more steps than are left. */
  lemma {:induction false} RunsEnd(s: State, run: seq<Action>)
    requires Inv(s) && PossibleRun(s, run) && OnlyAdvances(run)
    ensures |run| + TotalLeft(After(s, run).threads) == TotalLeft(s.threads)
    decreases |run|
  {
    if run != [] {
      assert run[0].Advance?;
      AdvanceCountsDown(s, run[0].t);
      NextKeeps(s, run[0]);
      RunsEnd(Next(s, run[0]), run[1..]);
    }
  }

  lemma OtherCrossedBefore(s: State, v: nat, a: nat, b: nat)
    requires Inv(s) && Moves(s, v) && b != v
    requires WellFormed(Step(s, v)) && Crossed(Step(s, v), a, b)
    ensures Crossed(s, a, b)
  {
    ClaimsBehind(s, v);
    if a != v {
      OthersStay(s, Advance(v), a);
    }
    OthersStay(s, Advance(v), b);
    StepLetsIn(s, v, b, 0);
    StepLetsIn(s, v, b, s.threads[a].pc.m + 1);
    assert LockOk(s, 0);
    assert RoleOk(s.locks[0], a, RoleAt(s.threads[a].pc, 0));
  }

  lemma InvocationsCrossedBefore(s: State, v: nat, a: nat)
    requires Inv(s) && Moves(s, v)
    requires WellFormed(Step(s, v)) && Crossed(Step(s, v), a, v)
    ensures Crossed(s, a, v)
  {
    var p := s.threads[v].pc;
    WayBehind(s, v);
    WayAhead(s, v);
    OthersStay(s, Advance(v), a);
    var m := s.threads[a].pc.m;
    assert LockOk(s, 0) && LockOk(s, m + 1);
    assert RoleOk(s.locks[0], v, RoleAt(p, 0)) && RoleOk(s.locks[m + 1], v, RoleAt(p, m + 1));
    StepMovesLocks(s, v, m + 1);
  }

  /** A step that moves crosses nothing that was not crossed before. */
  lemma CrossedBefore(s: State, v: nat, a: nat, b: nat)
    requires Inv(s) && Moves(s, v)
    requires WellFormed(Step(s, v)) && Crossed(Step(s, v), a, b)
    ensures Crossed(s, a, b)
  {
    if b == v {
      InvocationsCrossedBefore(s, v, a);
    } else {
      OtherCrossedBefore(s, v, a, b);
    }
  }

  lemma StaysUncrossed(s: State, v: nat)
    requires Inv(s) && !Doomed(s) && Moves(s, v)
    ensures WellFormed(Step(s, v)) && !Doomed(Step(s, v))
  {
    StepKeeps(s, v);
    forall a: nat, b: nat ensures !Crossed(Step(s, v), a, b) {
      if Crossed(Step(s, v), a, b) {
        CrossedBefore(s, v, a, b);
      }
    }
  }

  /** Where nobody has a lock, one thread more that asks for one crosses nobody. */
  lemma BeginnersUncrossed(s: State, t: nat)
    requires Inv(s) && NoneMoves(s) && !SomeStuck(s) && t < |s.threads| && !s.threads[t].pc.Idle?
    ensures CanAdvance(s, t) && WellFormed(Step(s, t)) && !Doomed(Step(s, t))
  {
    OnlyBeginners(s, t);
    StepKeeps(s, t);
    AllUnlocked(s, 0);
    forall a: nat, b: nat ensures !Crossed(Step(s, t), a, b) {
      if a < |s.threads| && a != t {
        OnlyBeginners(s, a);
        OthersStay(s, Advance(t), a);
      }
    }
  }

  lemma SafeStep(s: State) returns (u: nat)
    requires Inv(s) && !Doomed(s) && !AllIdle(s)
    ensures CanAdvance(s, u) && WellFormed(Step(s, u)) && !Doomed(Step(s, u))
  {
    if v :| Moves(s, v) {
      u := v;
      StaysUncrossed(s, u);
    } else {
      if SomeStuck(s) {
        var a: nat, b: nat, m: nat :| Stuck(s, a, b, m);
        StuckIsDoomed(s, a, b, m);
      }
      u :| 0 <= u < |s.threads| && !s.threads[u].pc.Idle?;
      BeginnersUncrossed(s, u);
    }
  }

  /** From any state that is not doomed some schedule of the operations under way, none new, brings them all to
      their end. */
  lemma {:induction false} OperationsFinish(s: State) returns (run: seq<Action>)
    requires Inv(s) && !Doomed(s)
    ensures PossibleRun(s, run) && AllIdle(After(s, run)) && OnlyAdvances(run)
    decreases TotalLeft(s.threads)
  {
    if AllIdle(s) {
      run := [];
    } else {
      var u := SafeStep(s);
      AdvanceCountsDown(s, u);
      StepKeeps(s, u);
      var rest := OperationsFinish(Step(s, u));
      run := [Advance(u)] + rest;
      assert run[1..] == rest;
    }
  }

  /** Some run brings every thread to rest. */
  ghost predicate CanFinish(s: State)
    requires WellFormed(s)
  {
    exists run: seq<Action> :: PossibleRun(s, run) && AllIdle(After(s, run))
  }

  /** Exactly when everything under way can still finish: as long as no Invocations that has the shared mutex, or is
      in line for it, has yet to take the mutex of a method some call of which has it, or is next to, and has yet to
      take the shared one. A call that queues behind another writer does no harm: the Invocations is let in first. */
  lemma FinishExactly(s: State)
    requires Inv(s)
    ensures CanFinish(s) <==> !Doomed(s)
  {
    if Doomed(s) {
      var t: nat, u: nat :| Crossed(s, t, u);
      forall run: seq<Action> | PossibleRun(s, run) ensures !AllIdle(After(s, run)) {
        CrossedForEver(s, t, u, run);
      }
    } else {
      var run := OperationsFinish(s);
    }
  }

  /** Calls that have not come to their method's mutex, however they queue for it, keep nobody from finishing. */
  lemma QueuedCallsFinish(s: State)
    requires Inv(s) && forall t :: 0 <= t < |s.threads| ==> !Claims(s.threads[t].pc)
    ensures CanFinish(s)
  {
    assert forall t: nat, u: nat :: !Crossed(s, t, u);
    FinishExactly(s);
  }

  // ---------- A deadlock, for every method ----------

  lemma Do(s: State, a: Action) returns (s': State)
    requires Reachable(s) && Possible(s, a)
    ensures s' == Next(s, a) && Reachable(s')
  {
    ReachNext(s, a);
    s' := Next(s, a);
  }

  /** Thread 0 is inside a call of m, its own mutex held and no other; thread 1 is where p says. */
  ghost predicate Beside(s: State, m: nat, p: Pc) {
    && Reachable(s) && |s.threads| == 2 && m < METHODS
    && s.threads[0].pc.Appended? && s.threads[0].pc.m == m && s.threads[1].pc == p
  }

  lemma CallerAsks(zeros: seq<Reply>, grow: nat -> nat, m: nat, arg: Call) returns (s: State)
    requires |zeros| == METHODS && m < METHODS
    ensures Reachable(s) && |s.threads| == 2 && s.locks[m + 1] == UNLOCKED
    ensures s.threads[0].pc == LockMethod(m, arg) && s.threads[1].pc.Idle?
  {
    s := Start(zeros, grow, 2);
    StartInv(zeros, grow, 2);
    assert LeadsTo(zeros, 2, [], s);
    s := Do(s, Begin(0, DoCall(m, arg)));
  }

  lemma CallerEnters(zeros: seq<Reply>, grow: nat -> nat, m: nat, arg: Call) returns (s: State)
    requires |zeros| == METHODS && m < METHODS
    ensures Reachable(s) && |s.threads| == 2
    ensures s.threads[0].pc.Entered? && s.threads[0].pc.m == m && s.threads[1].pc.Idle?
  {
    s := CallerAsks(zeros, grow, m, arg);
    s := Do(s, Advance(0));
    s := Do(s, Advance(0));
  }

  lemma CallerHolds(zeros: seq<Reply>, grow: nat -> nat, m: nat, arg: Call) returns (s: State)
    requires |zeros| == METHODS && m < METHODS
    ensures Beside(s, m, Idle)
  {
    s := CallerEnters(zeros, grow, m, arg);
    s := Do(s, Advance(0));
    s := Do(s, Advance(0));
  }

  lemma InvocationsPasses(s: State, m: nat, n: nat) returns (s': State)
    requires Beside(s, m, Locking(n)) && n <= m
    ensures Beside(s', m, Locking(n + 1))
  {
    ReachableInv(s);
    assert LockOk(s, n);
    assert s.locks[n].NoWriter();
    s' := Do(s, Advance(1));
    s' := Do(s', Advance(1));
  }

  lemma {:induction false} InvocationsClimbs(s: State, m: nat, n: nat) returns (s': State)
    requires Beside(s, m, Locking(n)) && n <= m + 1
    ensures Beside(s', m, Locking(m + 1))
    decreases m + 1 - n
  {
    if n == m + 1 {
      s' := s;
    } else {
      s' := InvocationsPasses(s, m, n);
      s' := InvocationsClimbs(s', m, n + 1);
    }
  }

  lemma BothAsk(s: State, m: nat) returns (s': State)
    requires Beside(s, m, Locking(m + 1))
    ensures Reachable(s') && |s'.threads| == 2 && Stuck(s', 0, 1, m)
    ensures s'.threads[0].pc.AwaitShared? && s'.threads[1].pc.Awaiting?
  {
    ReachableInv(s);
    assert LockOk(s, 0);
    assert s.locks[0].NoWriter();
    s' := Do(s, Advance(0));
    s' := Do(s', Advance(0));
    s' := Do(s', Advance(1));
  }

  lemma NeitherAdvances(s: State, m: nat)
    requires Reachable(s) && |s.threads| == 2 && Stuck(s, 0, 1, m)
    requires s.threads[0].pc.AwaitShared? && s.threads[1].pc.Awaiting?
    ensures forall u :: !CanAdvance(s, u)
  {
    ReachableInv(s);
    StuckLocks(s, 0, 1, m);
    assert !CanAdvance(s, 0) && !CanAdvance(s, 1);
  }

  /** Keeping them apart is needed for every method: a call of it and an Invocations are enough to reach a deadlock. */
  lemma DeadlockReachable(zeros: seq<Reply>, grow: nat -> nat, m: nat, arg: Call) returns (s: State)
    requires |zeros| == METHODS && m < METHODS
    ensures Reachable(s) && |s.threads| == 2 && Stuck(s, 0, 1, m) && forall u :: !CanAdvance(s, u)
  {
    s := CallerHolds(zeros, grow, m, arg);
    s := Do(s, Begin(1, DoInvocations));
    s := InvocationsClimbs(s, m, 0);
    s := BothAsk(s, m);
    NeitherAdvances(s, m);
  }

  // ---------- When a lock lets a thread through ----------

  /** The lock that a thread is about to ask for, or has asked for. */
  function Wanted(p: Pc): Option<nat> {
    match p
    case LockMethod(m, _) => Some(m + 1)
    case AwaitMethod(m, _) => Some(m + 1)
    case LockShared(_, _, _, _) => Some(0)
    case AwaitShared(_, _, _, _) => Some(0)
    case LockChange(m, _) => Some(m + 1)
    case AwaitChange(m, _) => Some(m + 1)
    case LockRead(m) => Some(m + 1)
    case AwaitRead(m) => Some(m + 1)
    case Locking(n) => Some(n)
    case Awaiting(n) => Some(n)
    case _ => None
  }

  /** No thread has lock l for writing or is announced to it. */
  ghost predicate Unclaimed(s: State, l: nat) {
    forall u :: 0 <= u < |s.threads| ==>
      !RoleAt(s.threads[u].pc, l).Holder? && !RoleAt(s.threads[u].pc, l).Announced?
  }

  /** No thread reads under lock l or has been let in to read. */
  ghost predicate Unread(s: State, l: nat)
    requires WellFormed(s)
  {
    forall u :: 0 <= u < |s.threads| ==>
      !RoleAt(s.threads[u].pc, l).Reader? && (RoleAt(s.threads[u].pc, l).Arrived? ==> !CanAdvance(s, u))
  }

  lemma ClaimsSeen(s: State, l: nat)
    requires Inv(s) && l < LOCKS
    ensures s.locks[l].NoWriter() <==> Unclaimed(s, l)
  {
    assert LockOk(s, l);
    var rw := s.locks[l];
    if rw.writer.Some? {
      assert RoleOk(rw, rw.writer.value, RoleAt(s.threads[rw.writer.value].pc, l));
    } else if rw.pending.Some? {
      assert RoleOk(rw, rw.pending.value, RoleAt(s.threads[rw.pending.value].pc, l));
    } else {
      forall u | 0 <= u < |s.threads|
        ensures !RoleAt(s.threads[u].pc, l).Holder? && !RoleAt(s.threads[u].pc, l).Announced?
      {
        assert RoleOk(rw, u, RoleAt(s.threads[u].pc, l));
      }
    }
  }

  lemma ReadersSeen(s: State, l: nat)
    requires Inv(s) && l < LOCKS
    ensures s.locks[l].readers == {} <==> Unread(s, l)
  {
    assert LockOk(s, l);
    var rw := s.locks[l];
    forall u | 0 <= u < |s.threads|
      ensures u in rw.readers <==>
              RoleAt(s.threads[u].pc, l).Reader? || (RoleAt(s.threads[u].pc, l).Arrived? && CanAdvance(s, u))
    {
      assert RoleOk(rw, u, RoleAt(s.threads[u].pc, l));
    }
    if rw.readers != {} {
      var u :| u in rw.readers;
      assert u < |s.threads|;
    }
  }

  /** A writer can announce itself exactly while no other has the mutex or is announced, whoever is reading, and gets
      it once nobody reads. */
  lemma WritersPassExactly(s: State, t: nat)
    requires Inv(s) && t < |s.threads|
    ensures var p := s.threads[t].pc;
            && (p.LockMethod? || p.LockChange? || p.LockShared? ==>
                  (CanAdvance(s, t) <==> Unclaimed(s, Wanted(p).value)))
            && (p.AwaitMethod? || p.AwaitChange? || p.AwaitShared? ==>
                  (CanAdvance(s, t) <==> Unread(s, Wanted(p).value)))
  {
    var p := s.threads[t].pc;
    if Wanted(p).Some? {
      ClaimsSeen(s, Wanted(p).value);
      ReadersSeen(s, Wanted(p).value);
    }
  }

  lemma ArrivedStep(s: State, t: nat, l: nat)
    requires Inv(s) && t < |s.threads| && l < LOCKS && Wanted(s.threads[t].pc) == Some(l)
    requires s.threads[t].pc.LockRead? || s.threads[t].pc.Locking?
    ensures CanAdvance(s, t) && WellFormed(Step(s, t)) && t < |Step(s, t).threads|
    ensures Step(s, t).locks[l] == s.locks[l].Arrive(t) && Wanted(Step(s, t).threads[t].pc) == Some(l)
    ensures var p' := Step(s, t).threads[t].pc; p'.AwaitRead? || p'.Awaiting?
  {
  }

  /** A reader can always ask, and is let in at once exactly if no writer has the mutex or is announced. */
  lemma ReadersPassExactly(s: State, t: nat)
    requires Inv(s) && t < |s.threads| && (s.threads[t].pc.LockRead? || s.threads[t].pc.Locking?)
    ensures CanAdvance(s, t) && WellFormed(Step(s, t))
    ensures CanAdvance(Step(s, t), t) <==> Unclaimed(s, Wanted(s.threads[t].pc).value)
  {
    var l := Wanted(s.threads[t].pc).value;
    ArrivedStep(s, t, l);
    ClaimsSeen(s, l);
    assert LockOk(s, l);
    assert RoleOk(s.locks[l], t, RoleAt(s.threads[t].pc, l));
  }
}
