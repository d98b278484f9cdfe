/**
 FakeDriver as one thread at a time sees it, each operation between the lock
 and unlock of its method's mutex. The record of invocations is made of Go
 slices, whose backing arrays a caller of Invocations shares with the fake.
 */
module Recorder {
  import opened Outcomes
  import opened GoSlices
  import opened Messages
  import opened RecorderSpec

  /** A Go slice: a length and the array behind it, whose length is the capacity. */
  datatype Slice = Slice(backing: array<Call>, len: nat)

  function Contents(s: Slice): seq<Call>
    requires s.len <= s.backing.Length
    reads s.backing
  {
    s.backing[..s.len]
  }

  /** Go's append: in place if there is room, else into a new array of the capacity the library picks. */
  method Append(s: Slice, x: Call, grow: nat -> nat) returns (r: Slice)
    requires s.len <= s.backing.Length
    modifies s.backing
    ensures r.len == s.len + 1 <= r.backing.Length && Contents(r) == old(Contents(s)) + [x]
    ensures if s.len < s.backing.Length then r.backing == s.backing
            else fresh(r.backing) && r.backing.Length == Capacity(grow, s.len)
    ensures forall i :: 0 <= i < s.backing.Length && i != s.len ==> s.backing[i] == old(s.backing[i])
  {
    if s.len < s.backing.Length {
      s.backing[s.len] := x;
      return Slice(s.backing, s.len + 1);
    }
    var grown := new Call[Capacity(grow, s.len)](_ => Activate);
    forall i | 0 <= i < s.len {
      grown[i] := s.backing[i];
    }
    grown[s.len] := x;
    return Slice(grown, s.len + 1);
  }

  // ---------- The shared record ----------

  /** Every array serves one method. */
  ghost predicate RecordOk(inv: map<Op, Slice>, owner: map<array<Call>, Op>, op: Op)
    requires op in inv
  {
    inv[op].backing in owner && owner[inv[op].backing] == op && 0 < inv[op].len <= inv[op].backing.Length
  }

  /** An issued slice reaches no further than the record in its array, if the record is still there; and the record
      leaves an array only when that is full. */
  ghost predicate IssuedOk(inv: map<Op, Slice>, owner: map<array<Call>, Op>, s: Slice) {
    && s.backing in owner && s.len <= s.backing.Length && owner[s.backing] in inv
    && (var record := inv[owner[s.backing]];
        if record.backing == s.backing then s.len <= record.len else s.backing.Length < record.len)
  }

  ghost predicate SlicesOk(inv: map<Op, Slice>, issued: set<Slice>, owner: map<array<Call>, Op>) {
    && (forall op :: op in inv ==> RecordOk(inv, owner, op))
    && (forall s :: s in issued ==> IssuedOk(inv, owner, s))
  }

  /** The slice that append makes of the record of op. */
  ghost predicate Grown(inv: map<Op, Slice>, op: Op, r: Slice, grow: nat -> nat) {
    var n := if op in inv then inv[op].len else 0;
    && r.len == n + 1 <= r.backing.Length
    && if op in inv && n < inv[op].backing.Length then r.backing == inv[op].backing
       else r.backing.Length == Capacity(grow, n)
  }

  /** It stays in the array of the record, or in one that serves no method yet. */
  ghost predicate Placed(inv: map<Op, Slice>, owner: map<array<Call>, Op>, op: Op, r: Slice) {
    r.backing in owner ==> op in inv && r.backing == inv[op].backing
  }

  lemma StoreKeepsRecord(inv: map<Op, Slice>, owner: map<array<Call>, Op>, op: Op, r: Slice, o: Op)
    requires o in inv ==> RecordOk(inv, owner, o)
    requires Placed(inv, owner, op, r) && 0 < r.len <= r.backing.Length
    requires op in inv ==> RecordOk(inv, owner, op)
    ensures o in inv[op := r] ==> RecordOk(inv[op := r], owner[r.backing := op], o)
  {
  }

  lemma StoreKeepsIssued(inv: map<Op, Slice>, owner: map<array<Call>, Op>, op: Op, r: Slice, grow: nat -> nat, s: Slice)
    requires IssuedOk(inv, owner, s) && Grown(inv, op, r, grow) && Placed(inv, owner, op, r)
    requires op in inv ==> RecordOk(inv, owner, op)
    ensures IssuedOk(inv[op := r], owner[r.backing := op], s)
  {
    if owner[s.backing] == op {
      assert r.len == inv[op].len + 1;
    }
  }

  lemma StoreKeepsSlices(inv: map<Op, Slice>, issued: set<Slice>, owner: map<array<Call>, Op>, op: Op, r: Slice,
      grow: nat -> nat)
    requires SlicesOk(inv, issued, owner) && Grown(inv, op, r, grow) && Placed(inv, owner, op, r)
    ensures SlicesOk(inv[op := r], issued, owner[r.backing := op])
  {
    var inv', owner' := inv[op := r], owner[r.backing := op];
    forall o | o in inv' ensures RecordOk(inv', owner', o) {
      StoreKeepsRecord(inv, owner, op, r, o);
    }
    forall s | s in issued ensures IssuedOk(inv', owner', s) {
      StoreKeepsIssued(inv, owner, op, r, grow, s);
    }
  }

  method CopyMap(m: map<Op, Slice>) returns (copy: map<Op, Slice>)
    ensures copy == m
  {
    copy := map[];
    var keys := m.Keys;
    while keys != {}
      invariant keys <= m.Keys && copy.Keys == m.Keys - keys
      invariant forall op :: op in copy ==> copy[op] == m[op]
      decreases |keys|
    {
      var key :| key in keys;
      copy := copy[key := m[key]];
      keys := keys - {key};
    }
  }

  /** The invocations map, which invocationsMutex guards. */
  class InvocationLog {
    const grow: nat -> nat  // how append sizes new arrays
    var invocations: map<Op, Slice>

    // the slices that Invocations has handed out, and the method each backing array serves
    ghost var issued: set<Slice>
    ghost var owner: map<array<Call>, Op>

    ghost predicate Valid()
      reads this
    {
      SlicesOk(invocations, issued, owner)
    }

    /** The arguments of the calls of a method, as the map shows them. */
    ghost function RecordOf(op: Op): seq<Call>
      requires Valid()
      reads this, owner.Keys
    {
      if op in invocations then Contents(invocations[op]) else []
    }

    constructor (grow: nat -> nat)
      ensures Valid() && this.grow == grow && invocations == map[] && issued == {} && owner == map[]
    {
      this.grow := grow;
      invocations, issued, owner := map[], {}, map[];
    }

    /** Invocations has handed out s for op. */
    ghost predicate Issued(s: Slice, op: Op)
      reads this
    {
      s in issued && s.backing in owner && owner[s.backing] == op
    }

    /** The slice of a method, an empty one if it has none yet. */
    method Current(op: Op) returns (s: Slice)
      requires Valid()
      ensures s.len <= s.backing.Length
      ensures if op in invocations then s == invocations[op] else s.len == s.backing.Length == 0 && fresh(s.backing)
    {
      if op in invocations {
        return invocations[op];
      }
      var none := new Call[0];
      return Slice(none, 0);
    }

    /** append(invocations[op], arg), not yet stored: it writes past every slice's end, so nothing shown changes. */
    method Appended(op: Op, arg: Call) returns (r: Slice)
      requires Valid()
      modifies owner.Keys
      ensures forall o :: RecordOf(o) == old(RecordOf(o))
      ensures forall s :: s in issued ==> Contents(s) == old(Contents(s))
      ensures Grown(invocations, op, r, grow) && Placed(invocations, owner, op, r)
      ensures r.backing in owner || fresh(r.backing)
      ensures Contents(r) == old(RecordOf(op)) + [arg]
    {
      var s := Current(op);
      r := Append(s, arg, grow);
      forall i | i in issued ensures Contents(i) == old(Contents(i)) {
        assert i.backing == s.backing ==> i.len <= s.len;
      }
      forall o ensures RecordOf(o) == old(RecordOf(o)) {
        assert o != op && o in invocations ==> invocations[o].backing != s.backing;
      }
    }

    method Store(op: Op, r: Slice)
      requires Valid() && Grown(invocations, op, r, grow) && Placed(invocations, owner, op, r)
      modifies `invocations, `owner
      ensures Valid() && owner == old(owner)[r.backing := op] && invocations == old(invocations)[op := r]
      ensures RecordOf(op) == Contents(r) && forall o :: o != op ==> RecordOf(o) == old(RecordOf(o))
    {
      StoreKeepsSlices(invocations, issued, owner, op, r, grow);
      invocations := invocations[op := r];
      owner := owner[r.backing := op];
    }

    /** The record of op grows by arg, the others stay, and every slice handed out shows what it showed. */
    method RecordInvocation(op: Op, arg: Call)
      requires Valid()
      modifies this, owner.Keys
      ensures Valid() && issued == old(issued) && fresh(owner.Keys - old(owner.Keys))
      ensures op in invocations && Grown(old(invocations), op, invocations[op], grow)
      ensures forall s :: s in issued ==> s.backing in owner && owner[s.backing] == old(owner)[s.backing]
      ensures RecordOf(op) == old(RecordOf(op)) + [arg]
      ensures forall o :: o != op ==> RecordOf(o) == old(RecordOf(o))
      ensures forall s :: s in issued ==> Contents(s) == old(Contents(s))
    {
      var r := Appended(op, arg);
      Store(op, r);
    }

    /** Invocations copies the map, not the arrays: the slices handed out show every method's calls as they stand,
        in the fake's own arrays. A method that was never called has no key. */
    method Invocations() returns (copy: map<Op, Slice>)
      requires Valid()
      modifies `issued
      ensures Valid() && issued == old(issued) + copy.Values
      ensures forall op :: RecordOf(op) == old(RecordOf(op))
      ensures forall op :: op in copy <==> RecordOf(op) != []
      ensures forall op :: op in copy ==> copy[op].len <= copy[op].backing.Length && Contents(copy[op]) == RecordOf(op)
      ensures copy == invocations && forall op :: op in copy ==> Issued(copy[op], op)
    {
      copy := CopyMap(invocations);
      issued := issued + copy.Values;
    }
  }

  // ---------- One method of the fake ----------

  lemma CallAnswered(zero: Reply, h: seq<Event>, arg: Call)
    ensures var c, args := ConfigAfter(zero, h), ArgsOf(h);
            var answer := Choose(c, Specific(c, |args|));
            var g := h + [Called(arg, answer)];
            answer == SpecAnswer(zero, h, |args|) && ArgsOf(g) == args + [arg] && ConfigAfter(zero, g) == c
  {
    ChooseIsSpec(zero, h, |ArgsOf(h)|);
    Extend(zero, h, Called(arg, SpecAnswer(zero, h, |ArgsOf(h)|)));
  }

  /** The fields of one method, which its mutex guards. */
  class FakeMethod {
    const op: Op
    const zero: Reply  // the zero value of the method's response type
    const log: InvocationLog
    var args: seq<Call>
    var config: Config
    ghost var history: seq<Event>  // what was done on the method so far

    /** The fields are what the history makes them, and the two records of the calls agree. */
    ghost predicate Valid()
      reads this, log, log.owner.Keys
    {
      Replayed() && log.Valid() && log.RecordOf(op) == args
    }

    constructor (op: Op, log: InvocationLog)
      requires log.Valid() && log.RecordOf(op) == []
      ensures Valid() && this.op == op && this.log == log && FailsWith(op, zero, "") && history == []
    {
      FailureFails(op, "");
      this.op, this.zero, this.log := op, Failure(op, ""), log;
      args, config, history := [], Config(None, Failure(op, ""), map[]), [];
    }

    /** XReturns, XReturnsOnCall and XCalls. */
    method Configure(change: Change)
      requires Valid()
      modifies this
      ensures Valid() && history == old(history) + [Changed(change)]
    {
      Extend(zero, history, Changed(change));
      config := Apply(config, change);
      history := history + [Changed(change)];
    }

    ghost predicate Replayed()
      reads `args, `config, `history
    {
      args == ArgsOf(history) && config == ConfigAfter(zero, history)
    }

    /** The part of a call on the method's own fields: its number, its arguments, its answer. */
    method Admit(arg: Call) returns (answer: Answer)
      requires Replayed()
      modifies `args, `history
      ensures Replayed() && args == old(args) + [arg] && history == old(history) + [Called(arg, answer)]
      ensures answer == SpecAnswer(zero, old(history), |ArgsOf(old(history))|)
    {
      CallAnswered(zero, history, arg);
      var specific := Specific(config, |args|);
      args := args + [arg];
      answer := Choose(config, specific);
      history := history + [Called(arg, answer)];
    }

    /** A call: both records grow by its arguments, it is answered as the history demands, no other method's
        record changes, and every slice handed out by Invocations shows what it showed. */
    method Invoke(arg: Call) returns (answer: Answer)
      requires Valid()
      modifies this, log, log.owner.Keys
      ensures Valid() && fresh(log.owner.Keys - old(log.owner.Keys))
      ensures answer == SpecAnswer(zero, old(history), |ArgsOf(old(history))|)
      ensures history == old(history) + [Called(arg, answer)]
      ensures forall o :: o != op ==> log.RecordOf(o) == old(log.RecordOf(o))
      ensures log.issued == old(log.issued) && forall s :: s in log.issued ==> Contents(s) == old(Contents(s))
      ensures op in log.invocations && Grown(old(log.invocations), op, log.invocations[op], log.grow)
      ensures forall s :: s in log.issued ==>
                s.backing in log.owner && log.owner[s.backing] == old(log.owner)[s.backing]
    {
      answer := Admit(arg);
      log.RecordInvocation(op, arg);
    }

    /** XCallCount. */
    method CallCount() returns (n: nat)
      requires Valid()
      ensures n == |ArgsOf(history)|
    {
      n := |args|;
    }

    /** XArgsForCall. An index out of range panics in Go. */
    method ArgsForCall(i: nat) returns (arg: Call)
      requires Valid() && i < |ArgsOf(history)|
      ensures arg == ArgsOf(history)[i] == log.RecordOf(op)[i]
    {
      arg := args[i];
    }
  }

  /** Methods of one fake share its log without disturbing each other. */
  method InvokeBeside(a: FakeMethod, b: FakeMethod, arg: Call) returns (answer: Answer)
    requires a.Valid() && b.Valid() && a.log == b.log && a.op != b.op
    modifies a, a.log, a.log.owner.Keys
    ensures a.Valid() && b.Valid() && a.history == old(a.history) + [Called(arg, answer)] && b.history == old(b.history)
  {
    answer := a.Invoke(arg);
  }

  // ---------- Callers that append ----------

  /** The sharing works the other way too. A caller that appends to a slice it was handed for op overwrites the fake's
      record of op, and other slices that share the array, exactly if op was called since and the record still fits
      the slice's capacity; otherwise nothing that anyone shows changes. */
  method CallerAppends(log: InvocationLog, op: Op, s: Slice, x: Call) returns (r: Slice)
    requires log.Valid() && log.Issued(s, op)
    modifies s.backing
    ensures log.Valid()
    ensures log.RecordOf(op) ==
            if s.len < |old(log.RecordOf(op))| <= s.backing.Length then old(log.RecordOf(op))[s.len := x]
            else old(log.RecordOf(op))
    ensures forall o :: o != op ==> log.RecordOf(o) == old(log.RecordOf(o))
    ensures forall i :: i in log.issued ==>
              Contents(i) ==
              if i.backing == s.backing && s.len < i.len then old(Contents(i))[s.len := x] else old(Contents(i))
    ensures r.len <= r.backing.Length && Contents(r) == old(Contents(s)) + [x]
  {
    r := Append(s, x, log.grow);
    forall i | i in log.issued
      ensures Contents(i) ==
              if i.backing == s.backing && s.len < i.len then old(Contents(i))[s.len := x] else old(Contents(i))
    {
      assert IssuedOk(log.invocations, log.owner, i);
    }
  }

  /** The capacity of a record of n calls. */
  function CapacityAfter(grow: nat -> nat, n: nat): (c: nat)
    ensures n <= c
  {
    if n == 0 then 0
    else
      var before := CapacityAfter(grow, n - 1);
      if n - 1 < before then before else Capacity(grow, n - 1)
  }

  /** The fake has been called with these arguments, and its record of them has the capacity that follows. */
  ghost predicate Holds(fake: FakeMethod, calls: seq<Call>)
    reads fake, fake.log, fake.log.owner.Keys
  {
    && fake.Valid() && fake.args == calls
    && if fake.op in fake.log.invocations then
         var record := fake.log.invocations[fake.op];
         |calls| == record.len && record.backing.Length == CapacityAfter(fake.log.grow, |calls|)
       else calls == []
  }

  /** These slices have been handed out for the fake's method. */
  ghost predicate Handed(fake: FakeMethod, slices: set<Slice>)
    reads fake, fake.log
  {
    forall s :: s in slices ==> fake.log.Issued(s, fake.op)
  }

  method CallOnce(fake: FakeMethod, ghost calls: seq<Call>, arg: Call, ghost slices: set<Slice>)
    requires Holds(fake, calls) && Handed(fake, slices)
    modifies fake, fake.log, fake.log.owner.Keys
    ensures Holds(fake, calls + [arg]) && Handed(fake, slices)
    ensures fresh(fake.log.owner.Keys - old(fake.log.owner.Keys))
  {
    var answer := fake.Invoke(arg);
  }

  method CallEach(fake: FakeMethod, ghost calls: seq<Call>, args: seq<Call>, ghost slices: set<Slice>)
    requires Holds(fake, calls) && Handed(fake, slices)
    modifies fake, fake.log, fake.log.owner.Keys
    ensures Holds(fake, calls + args) && Handed(fake, slices)
    ensures fresh(fake.log.owner.Keys - old(fake.log.owner.Keys))
    decreases |args|
  {
    if args == [] {
      assert calls + args == calls;
    } else {
      assert calls + [args[0]] + args[1..] == calls + args;
      CallOnce(fake, calls, args[0], slices);
      CallEach(fake, calls + [args[0]], args[1..], slices);
    }
  }

  method NewFake(op: Op, grow: nat -> nat) returns (fake: FakeMethod)
    ensures fresh(fake) && fresh(fake.log) && fake.log.owner == map[] && fake.op == op && fake.log.grow == grow
    ensures Holds(fake, [])
  {
    var log := new InvocationLog(grow);
    fake := new FakeMethod(op, log);
  }

  /** Some calls, Invocations, some more calls, and an append to the slice handed out. */
  method CallsThenAppend(op: Op, grow: nat -> nat, before: seq<Call>, after: seq<Call>, x: Call)
      returns (fake: FakeMethod)
    requires before != []
    ensures fresh(fake) && fake.op == op && fake.log.Valid() && fake.args == before + after
    ensures fake.log.RecordOf(op) ==
            if after != [] && |before + after| <= CapacityAfter(grow, |before|) then (before + after)[|before| := x]
            else before + after
  {
    fake := NewFake(op, grow);
    CallEach(fake, [], before, {});
    assert [] + before == before;
    var copy := fake.log.Invocations();
    var s := copy[op];
    CallEach(fake, before, after, {s});
    var r := CallerAppends(fake.log, op, s, x);
  }

  /** The fake's own operations do lead there: with arrays that double, an append to the slice handed out after three
      calls puts x in place of the fourth call in one of the two records. */
  method RecordsComeApart(op: Op, a: Call, b: Call, c: Call, d: Call, x: Call) returns (fake: FakeMethod)
    ensures fresh(fake) && fake.op == op && fake.log.Valid()
    ensures fake.args == [a, b, c, d] && fake.log.RecordOf(op) == [a, b, c, x]
  {
    var grow := (n: nat) => 2 * n;
    assert CapacityAfter(grow, 1) == 1 && CapacityAfter(grow, 2) == 2 && CapacityAfter(grow, 3) == 4;
    fake := CallsThenAppend(op, grow, [a, b, c], [d], x);
    assert [a, b, c] + [d] == [a, b, c, d] && [a, b, c, d][3 := x] == [a, b, c, x];
  }
}
