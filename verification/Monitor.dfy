/**
 EnvWithMonitor: a context derived from the request's, and a goroutine that
 cancels it when the connection closes. The events of the parent context, of
 the connection, and of the goroutine interleave in any order.
 */
module Monitor {
  import opened Outcomes

  /** Why a context is done. */
  datatype Cause = Canceled | DeadlineExceeded

  /** The goroutine: absent if the writer cannot notify, else selecting, about to cancel, or gone. */
  datatype Goroutine = Absent | Selecting | Cancelling | Finished

  datatype State = State(
    parent: Option<Cause>,      // the request context is done
    closed: bool,               // CloseNotify has fired
    derived: Option<Cause>,     // the context handed to the driver is done
    goroutine: Goroutine)

  datatype Event =
    | ParentDone(cause: Cause)  // the request context ends
    | Close                     // the connection closes
    | Propagate                 // the parent's end reaches the derived context
    | SelectParent              // select takes the done branch
    | SelectClose               // select takes the close branch
    | Cancel                    // the goroutine calls cancel

  /** EnvWithMonitor has just returned. A parent that was already done has already cancelled the new context. */
  function Start(parent: Option<Cause>, canNotify: bool): State {
    State(parent, false, parent, if canNotify then Selecting else Absent)
  }

  predicate Enabled(s: State, e: Event) {
    match e
    case ParentDone(_) => s.parent.None?
    case Close => !s.closed
    case Propagate => s.parent.Some? && s.derived.None?
    case SelectParent => s.goroutine.Selecting? && s.parent.Some?
    case SelectClose => s.goroutine.Selecting? && s.closed
    case Cancel => s.goroutine.Cancelling?
  }

  function Next(s: State, e: Event): State
    requires Enabled(s, e)
  {
    match e
    case ParentDone(c) => s.(parent := Some(c))
    case Close => s.(closed := true)
    case Propagate => s.(derived := s.parent)
    case SelectParent => s.(goroutine := Finished)
    case SelectClose => s.(goroutine := Cancelling)
    case Cancel => s.(derived := if s.derived.None? then Some(Canceled) else s.derived, goroutine := Finished)
  }

  /** The events can happen in this order. */
  predicate Possible(s: State, es: seq<Event>)
    decreases |es|
  {
    es == [] || (Enabled(s, es[0]) && Possible(Next(s, es[0]), es[1..]))
  }

  function After(s: State, es: seq<Event>): State
    requires Possible(s, es)
    decreases |es|
  {
    if es == [] then s else After(Next(s, es[0]), es[1..])
  }

  /** The events that come from outside: the parent context and the connection. */
  predicate External(e: Event) {
    e.ParentDone? || e.Close?
  }

  /** Nothing is left to do until something happens outside. */
  predicate Quiet(s: State) {
    !Enabled(s, Propagate) && !Enabled(s, SelectParent) && !Enabled(s, SelectClose) && !Enabled(s, Cancel)
  }

  // ---------- What every interleaving keeps ----------

  predicate Inv(s: State) {
    && (s.derived.Some? ==> s.derived == s.parent || (s.derived == Some(Canceled) && s.closed && s.goroutine.Finished?))
    && (s.goroutine.Cancelling? ==> s.closed)
    && (s.goroutine.Finished? ==> s.parent.Some? || (s.closed && s.derived.Some?))
  }

  lemma StepKeeps(s: State, e: Event)
    requires Inv(s) && Enabled(s, e)
    ensures Inv(Next(s, e))
    ensures s.derived.Some? ==> Next(s, e).derived == s.derived
    ensures s.parent.Some? ==> Next(s, e).parent == s.parent
    ensures s.closed ==> Next(s, e).closed
    ensures s.goroutine.Absent? <==> Next(s, e).goroutine.Absent?
  {
  }

  lemma {:induction false} RunKeeps(s: State, es: seq<Event>)
    requires Inv(s) && Possible(s, es)
    ensures Inv(After(s, es))
    ensures s.derived.Some? ==> After(s, es).derived == s.derived
    ensures s.parent.Some? ==> After(s, es).parent == s.parent
    ensures s.closed ==> After(s, es).closed
    ensures s.goroutine.Absent? <==> After(s, es).goroutine.Absent?
    decreases |es|
  {
    if es != [] {
      StepKeeps(s, es[0]);
      RunKeeps(Next(s, es[0]), es[1..]);
    }
  }

  lemma {:induction false} RunsJoin(s: State, es: seq<Event>, fs: seq<Event>)
    requires Possible(s, es + fs)
    ensures Possible(s, es) && Possible(After(s, es), fs) && After(s, es + fs) == After(After(s, es), fs)
    decreases |es|
  {
    if es == [] {
      assert es + fs == fs;
    } else {
      assert (es + fs)[1..] == es[1..] + fs;
      RunsJoin(Next(s, es[0]), es[1..], fs);
    }
  }

  /** Safety: in every interleaving the driver's context ends only if the request's did, with its cause, or the
      connection closed; and once ended it keeps its first cause whatever happens after. */
  lemma DerivedIsSafe(parent: Option<Cause>, canNotify: bool, es: seq<Event>, fs: seq<Event>)
    requires Possible(Start(parent, canNotify), es + fs)
    ensures Possible(Start(parent, canNotify), es)
    ensures var now, later := After(Start(parent, canNotify), es), After(Start(parent, canNotify), es + fs);
            && (now.derived.Some? ==>
                  && later.derived == now.derived
                  && (now.derived == now.parent || (now.derived == Some(Canceled) && now.closed && canNotify)))
  {
    var s := Start(parent, canNotify);
    RunsJoin(s, es, fs);
    RunKeeps(s, es);
    RunKeeps(After(s, es), fs);
  }

  /** Liveness and confluence: when no internal step is left, the driver's context is done exactly if the request's
      is, or the connection closed and there is a goroutine to see it, whichever branch select took. */
  lemma QuietMeansDelivered(parent: Option<Cause>, canNotify: bool, es: seq<Event>)
    requires Possible(Start(parent, canNotify), es)
    requires Quiet(After(Start(parent, canNotify), es))
    ensures var s := After(Start(parent, canNotify), es);
            && (s.derived.Some? <==> s.parent.Some? || (s.closed && canNotify))
            && (canNotify ==> (s.goroutine.Finished? <==> s.parent.Some? || s.closed))
  {
    RunKeeps(Start(parent, canNotify), es);
  }

  /** Internal steps still to come, at most. */
  function Pending(s: State): nat {
    (if s.derived.None? then 1 else 0) +
    match s.goroutine
    case Selecting => 2
    case Cancelling => 1
    case _ => 0
  }

  /** Left alone, the monitor comes to rest after at most three steps, however they are scheduled. */
  lemma {:induction false} ComesToRest(s: State, es: seq<Event>)
    requires Possible(s, es) && forall i :: 0 <= i < |es| ==> !External(es[i])
    ensures |es| <= Pending(s) - Pending(After(s, es)) <= 3
    decreases |es|
  {
    if es != [] {
      assert Pending(Next(s, es[0])) < Pending(s);
      ComesToRest(Next(s, es[0]), es[1..]);
    }
  }

  /** Two schedules of the internal steps from one state that both come to rest agree on whether the context is
      done and on the goroutine. They can differ only in the cause, and only if both events had come with a
      cause other than Canceled. */
  lemma Confluence(s: State, es: seq<Event>, fs: seq<Event>)
    requires Inv(s) && Possible(s, es) && Possible(s, fs)
    requires forall i :: 0 <= i < |es| ==> !External(es[i])
    requires forall i :: 0 <= i < |fs| ==> !External(fs[i])
    requires Quiet(After(s, es)) && Quiet(After(s, fs))
    ensures var a, b := After(s, es), After(s, fs);
            && a.goroutine == b.goroutine && (a.derived.Some? <==> b.derived.Some?)
            && (s.parent.None? || s.parent == Some(Canceled) || !s.closed || s.goroutine.Absent? ==> a == b)
  {
    RunKeeps(s, es);
    RunKeeps(s, fs);
    InternalKeeps(s, es);
    InternalKeeps(s, fs);
    var a, b := After(s, es), After(s, fs);
    assert a == State(s.parent, s.closed, a.derived, a.goroutine);
    assert b == State(s.parent, s.closed, b.derived, b.goroutine);
    assert s.parent.None? || s.parent == Some(Canceled) ==> a.derived == b.derived;
    assert !s.closed || s.goroutine.Absent? ==> a.derived == b.derived;
  }

  lemma {:induction false} InternalKeeps(s: State, es: seq<Event>)
    requires Possible(s, es) && forall i :: 0 <= i < |es| ==> !External(es[i])
    ensures After(s, es).parent == s.parent && After(s, es).closed == s.closed
    decreases |es|
  {
    if es != [] {
      InternalKeeps(Next(s, es[0]), es[1..]);
    }
  }

  /** A request whose context is already done gives the driver a context that is done at once, with the same cause. */
  lemma StartsDone(parent: Option<Cause>, canNotify: bool)
    ensures var s := Start(parent, canNotify); s.derived == s.parent == parent && !s.closed
    ensures Start(parent, canNotify).goroutine == if canNotify then Selecting else Absent
  {
  }

  /** When the deadline passes and the connection closes before anyone has acted on either, both outcomes are
      possible: the causes in which resting schedules may differ, and select takes either branch. */
  lemma EitherCause()
    ensures var s := After(Start(None, true), [ParentDone(DeadlineExceeded), Close]);
            && Possible(Start(None, true), [ParentDone(DeadlineExceeded), Close])
            && Possible(s, [Propagate, SelectParent]) && Quiet(After(s, [Propagate, SelectParent]))
            && After(s, [Propagate, SelectParent]).derived == Some(DeadlineExceeded)
            && Possible(s, [SelectClose, Cancel]) && Quiet(After(s, [SelectClose, Cancel]))
            && After(s, [SelectClose, Cancel]).derived == Some(Canceled)
  {
    var start := Start(None, true);
    var both := [ParentDone(DeadlineExceeded), Close];
    assert both[1..] == [Close] && [Close][1..] == [];
    var s := Next(Next(start, ParentDone(DeadlineExceeded)), Close);
    assert After(start, both) == s;
    assert [Propagate, SelectParent][1..] == [SelectParent] && [SelectParent][1..] == [];
    assert [SelectClose, Cancel][1..] == [Cancel] && [Cancel][1..] == [];
    assert After(s, [Propagate, SelectParent]) == Next(Next(s, Propagate), SelectParent);
    assert After(s, [SelectClose, Cancel]) == Next(Next(s, SelectClose), Cancel);
  }

  lemma {:induction false} OutsideNoted(s: State, es: seq<Event>)
    requires Possible(s, es)
    ensures After(s, es).closed <==> s.closed || Close in es
    ensures After(s, es).parent.None? <==> s.parent.None? && forall c :: ParentDone(c) !in es
    decreases |es|
  {
    if es != [] {
      OutsideNoted(Next(s, es[0]), es[1..]);
      assert forall e :: e in es <==> e == es[0] || e in es[1..];
    }
  }

  lemma {:induction false} OneMore(s: State, es: seq<Event>, e: Event)
    requires Possible(s, es)
    ensures Possible(s, es + [e]) <==> Enabled(After(s, es), e)
    decreases |es|
  {
    if es == [] {
      assert es + [e] == [e] && [e][1..] == [];
    } else {
      assert (es + [e])[0] == es[0] && (es + [e])[1..] == es[1..] + [e];
      OneMore(Next(s, es[0]), es[1..], e);
    }
  }

  /** The monitor never holds up the outside: at any time the connection can close, once, and the request context can
      end with either cause, unless it has ended before. */
  lemma OutsideIsFree(parent: Option<Cause>, canNotify: bool, es: seq<Event>, e: Event)
    requires Possible(Start(parent, canNotify), es) && External(e)
    ensures Possible(Start(parent, canNotify), es + [e]) <==>
            if e.Close? then Close !in es else parent.None? && forall c :: ParentDone(c) !in es
  {
    OutsideNoted(Start(parent, canNotify), es);
    OneMore(Start(parent, canNotify), es, e);
  }
}
