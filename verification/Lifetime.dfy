/** ComponentScope of plugin/module.go as interleaved atomic steps: every OnCleanup and Close call is a
    process of its own, and a step of any of them may come next. */
module Lifetime {
  import opened MergeClasses
  import opened Orders

  /** How a cleanup ends; a panic is contained and counts as a failure. */
  datatype RunResult = Succeeded | Failed(reason: string) | Panicked(reason: string)

  datatype Failure = Failure(cleanup: nat, result: RunResult)

  /** Where a call stands. Calls are numbered in the order they begin; a cleanup goes by the number of the
      OnCleanup call that brought it. */
  datatype Call =
    | Entering(registers: bool)
    | RegisterLocked
    | Late
    | LateRunning
    | Registered
    | CloseLocked
    | CloseCancelled
    | Draining(left: seq<nat>, errs: seq<Failure>)
    | Running(left: seq<nat>, errs: seq<Failure>)
    | Storing(err: seq<Failure>)
    | StoreLocked(err: seq<Failure>)
    | Stored(err: seq<Failure>)
    | Waiting
    | Returned(err: seq<Failure>)

  datatype Event = Cancelled | Started(cleanup: nat) | Finished(cleanup: nat) | ClosedWith(call: nat, err: seq<Failure>)

  /** The scope's fields, the calls in progress, and what has happened so far: `registered` lists the cleanups
      taken in before closing, `closer` the call that closes, `log` the events in order. */
  datatype State = State(
    calls: seq<Call>, lock: Option<nat>, cancelled: bool, closed: bool, cleanups: seq<nat>,
    closeErr: seq<Failure>, done: bool,
    registered: seq<nat>, closer: Option<nat>, log: seq<Event>)

  datatype Step = BeginRegister | BeginClose | ParentCancels | Advance(call: nat)

  function Initial(): State
  {
    State([], None, false, false, [], [], false, [], None, [])
  }

  /** What each cleanup does when it is run. */
  type Results = nat -> RunResult

  /** The next atomic step of one call: what it does to the scope, and where it leaves the call. None when the call
      has returned, or must wait for the lock or for closing to end. */
  function StepOf(s: State, i: nat, result: Results): Option<(State, Call)>
    requires i < |s.calls|
  {
    match s.calls[i]
    case Entering(registers) =>
      if s.lock.Some? then None else Some((s.(lock := Some(i)), if registers then RegisterLocked else CloseLocked))
    case RegisterLocked =>
      if !s.closed then Some((s.(lock := None, cleanups := s.cleanups + [i], registered := s.registered + [i]), Registered))
      else Some((s.(lock := None), Late))
    case Late => Some((s.(log := s.log + [Started(i)]), LateRunning))
    case LateRunning => Some((s.(log := s.log + [Finished(i)]), Registered))
    case Registered => None
    case CloseLocked =>
      if s.closed then Some((s.(lock := None), Waiting))
      else Some((s.(cancelled := true, log := s.log + [Cancelled]), CloseCancelled))
    case CloseCancelled => Some((s.(lock := None, closed := true, closer := Some(i), cleanups := []), Draining(s.cleanups, [])))
    case Draining(left, errs) =>
      if left == [] then Some((s, Storing(errs)))
      else Some((s.(log := s.log + [Started(left[|left| - 1])]), Running(left, errs)))
    case Running(left, errs) =>
      if left == [] then None
      else
        var x := left[|left| - 1];
        Some((s.(log := s.log + [Finished(x)]), Draining(left[..|left| - 1], errs + FailureOf(result, x))))
    case Storing(err) =>
      if s.lock.Some? then None else Some((s.(lock := Some(i)), StoreLocked(err)))
    case StoreLocked(err) => Some((s.(lock := None, closeErr := err), Stored(err)))
    case Stored(err) => Some((s.(done := true, log := s.log + [ClosedWith(i, err)]), Returned(err)))
    case Waiting => if !s.done then None else Some((s.(log := s.log + [ClosedWith(i, s.closeErr)]), Returned(s.closeErr)))
    case Returned(_) => None
  }

  function AdvanceCall(s: State, i: nat, result: Results): Option<State>
    requires i < |s.calls|
  {
    match StepOf(s, i, result)
    case None => None
    case Some((t, c)) => Some(t.(calls := s.calls[i := c]))
  }

  function FailureOf(result: Results, x: nat): seq<Failure>
  {
    if result(x) == Succeeded then [] else [Failure(x, result(x))]
  }

  function Next(s: State, step: Step, result: Results): Option<State>
  {
    match step
    case BeginRegister => Some(s.(calls := s.calls + [Entering(true)]))
    case BeginClose => Some(s.(calls := s.calls + [Entering(false)]))
    case ParentCancels => Some(s.(cancelled := true, log := s.log + [Cancelled]))
    case Advance(i) => if i < |s.calls| then AdvanceCall(s, i, result) else None
  }

  /** The state after a run, if every one of its steps was possible. */
  function After(steps: seq<Step>, result: Results): Option<State>
  {
    if steps == [] then Some(Initial())
    else
      match After(steps[..|steps| - 1], result)
      case None => None
      case Some(s) => Next(s, steps[|steps| - 1], result)
  }

  // ----- What every reachable state satisfies

  /** The cleanups of a list from its last down to index `n`: the order they are run in. */
  function Backwards(list: seq<nat>, n: nat): seq<nat>
    requires n <= |list|
  {
    seq(|list| - n, i requires 0 <= i < |list| - n => list[|list| - 1 - i])
  }

  function Failures(result: Results, order: seq<nat>): seq<Failure>
  {
    if order == [] then [] else Failures(result, order[..|order| - 1]) + FailureOf(result, order[|order| - 1])
  }

  /** The error every Close returns: the failures in the order the cleanups ran. */
  function Joined(s: State, result: Results): seq<Failure>
  {
    Failures(result, Backwards(s.registered, 0))
  }

  /** The registered cleanups started so far, in order; late ones are not among them. */
  function Drained(log: seq<Event>, registered: seq<nat>): seq<nat>
  {
    if log == [] then []
    else
      var last := log[|log| - 1];
      Drained(log[..|log| - 1], registered) + if last.Started? && last.cleanup in registered then [last.cleanup] else []
  }

  ghost predicate Holds(c: Call)
  {
    c.RegisterLocked? || c.CloseLocked? || c.CloseCancelled? || c.StoreLocked?
  }

  ghost predicate Closing(c: Call)
  {
    c.Draining? || c.Running? || c.Storing? || c.StoreLocked? || c.Stored?
  }

  /** What the log says of cleanups: which have started, which have finished, and in what order registered ones began. */
  datatype History = History(started: set<nat>, finished: set<nat>, drained: seq<nat>)

  ghost function HistoryOf(log: seq<Event>, registered: seq<nat>): History
  {
    History(set e | e in log && e.Started? :: e.cleanup, set e | e in log && e.Finished? :: e.cleanup, Drained(log, registered))
  }

  ghost predicate Untouched(s: State, h: History, i: nat)
  {
    i !in s.registered && i !in h.started && i !in h.finished
  }

  ghost predicate AllFinished(s: State, h: History)
  {
    h.drained == Backwards(s.registered, 0) && forall x :: x in s.registered ==> x in h.started && x in h.finished
  }

  /** Every cleanup of the list from index `started` on has begun, and every one from `finished` on has ended. */
  ghost predicate Progress(registered: seq<nat>, h: History, started: nat, finished: nat)
  {
    && started <= finished <= |registered| && h.drained == Backwards(registered, started)
    && (forall k :: 0 <= k < |registered| ==> (registered[k] in h.started <==> started <= k))
    && (forall k :: 0 <= k < |registered| ==> (registered[k] in h.finished <==> finished <= k))
  }

  ghost predicate CallOk(s: State, h: History, result: Results, i: nat)
    requires i < |s.calls|
  {
    && (Holds(s.calls[i]) <==> s.lock == Some(i))
    && (Closing(s.calls[i]) ==> s.closer == Some(i) && !s.done)
    && (!s.calls[i].LateRunning? && !s.calls[i].Registered? ==> Untouched(s, h, i))
    && (!Closing(s.calls[i]) && !s.calls[i].Returned? ==> s.closer != Some(i))
    && match s.calls[i]
       case Entering(_) => true
       case RegisterLocked => true
       case Late => s.closed
       case LateRunning => s.closed && i !in s.registered && i in h.started && i !in h.finished
       case Registered => i in s.registered || (i in h.started && i in h.finished)
       case CloseLocked => true
       case CloseCancelled => !s.closed && s.cancelled
       case Draining(left, errs) =>
         |left| <= |s.registered| && left == s.registered[..|left|] && Progress(s.registered, h, |left|, |left|)
         && errs == Failures(result, Backwards(s.registered, |left|))
       case Running(left, errs) =>
         0 < |left| <= |s.registered| && left == s.registered[..|left|] && Progress(s.registered, h, |left| - 1, |left|)
         && errs == Failures(result, Backwards(s.registered, |left|))
       case Storing(err) => AllFinished(s, h) && err == Joined(s, result)
       case StoreLocked(err) => AllFinished(s, h) && err == Joined(s, result)
       case Stored(err) => AllFinished(s, h) && err == s.closeErr == Joined(s, result)
       case Waiting => s.closed
       case Returned(err) => s.done && err == Joined(s, result)
  }

  ghost predicate ScopeOk(s: State, h: History, result: Results)
  {
    && (s.lock.Some? ==> s.lock.value < |s.calls| && Holds(s.calls[s.lock.value]))
    && (s.closed <==> s.closer.Some?)
    && (s.closed ==> s.cancelled && s.cleanups == [] && s.closer.value < |s.calls| && (s.done || Closing(s.calls[s.closer.value])))
    && (!s.closed ==> s.cleanups == s.registered && !s.done && h == History({}, {}, []))
    && (s.done ==> s.closed && AllFinished(s, h) && s.closeErr == Joined(s, result))
    && Distinct(s.registered) && (forall x :: x in s.registered ==> x < |s.calls| && s.calls[x].Registered?)
    && (forall x :: x in h.started || x in h.finished ==> x < |s.calls|)
  }

  ghost predicate CallsOk(s: State, h: History, result: Results)
  {
    forall i: nat :: i < |s.calls| ==> CallOk(s, h, result, i)
  }

  /** No start before the cancellation, no cleanup started or finished twice, none finished before it started, and
      no Close back before every registered cleanup has finished, nor with any other error. */
  ghost predicate EntryOk(before: seq<Event>, e: Event, registered: seq<nat>, joined: seq<Failure>)
  {
    match e
    case Cancelled => true
    case Started(x) => Cancelled in before && e !in before
    case Finished(x) => Started(x) in before && e !in before
    case ClosedWith(_, err) => err == joined && forall x :: x in registered ==> Finished(x) in before
  }

  ghost predicate LogOk(s: State, result: Results)
  {
    && (s.cancelled ==> Cancelled in s.log) && (!s.closed ==> forall e :: e in s.log ==> e == Cancelled)
    && forall i :: 0 <= i < |s.log| ==> EntryOk(s.log[..i], s.log[i], s.registered, Joined(s, result))
  }

  ghost predicate Inv(s: State, result: Results)
  {
    var h := HistoryOf(s.log, s.registered);
    ScopeOk(s, h, result) && CallsOk(s, h, result) && LogOk(s, result)
  }

  // ----- Every step keeps it

  lemma DrainedSnoc(log: seq<Event>, registered: seq<nat>, e: Event)
    ensures Drained(log + [e], registered) ==
            Drained(log, registered) + if e.Started? && e.cleanup in registered then [e.cleanup] else []
  {
    assert (log + [e])[..|log|] == log;
  }

  lemma {:induction false} DrainedNothing(log: seq<Event>, registered: seq<nat>)
    requires forall i :: 0 <= i < |log| ==> log[i] == Cancelled
    ensures Drained(log, registered) == []
    decreases |log|
  {
    if log != [] {
      DrainedNothing(log[..|log| - 1], registered);
    }
  }

  lemma BackwardsStep(list: seq<nat>, n: nat)
    requires 0 < n <= |list|
    ensures Backwards(list, n - 1) == Backwards(list, n) + [list[n - 1]]
    ensures Backwards(list, n - 1)[..|list| - n] == Backwards(list, n)
    ensures Backwards(list, |list|) == []
  {
  }

  /** What one more event adds to the history. */
  ghost function Extended(h: History, registered: seq<nat>, e: Event): History
  {
    match e
    case Started(x) => History(h.started + {x}, h.finished, h.drained + if x in registered then [x] else [])
    case Finished(x) => h.(finished := h.finished + {x})
    case _ => h
  }

  lemma HistoryGrows(log: seq<Event>, registered: seq<nat>, e: Event)
    ensures HistoryOf(log + [e], registered) == Extended(HistoryOf(log, registered), registered, e)
  {
    DrainedSnoc(log, registered, e);
    assert forall f :: f in log + [e] <==> f in log || f == e;
  }

  lemma NoHistory(log: seq<Event>, registered: seq<nat>)
    requires forall e :: e in log ==> e == Cancelled
    ensures HistoryOf(log, registered) == History({}, {}, [])
  {
    assert forall i :: 0 <= i < |log| ==> log[i] in log;
    DrainedNothing(log, registered);
  }

  lemma LogGrows(s: State, s': State, result: Results, e: Event)
    requires LogOk(s, result) && s'.log == s.log + [e] && s'.registered == s.registered && (e != Cancelled ==> s.closed)
    requires s'.closed == s.closed && (s'.cancelled ==> s.cancelled || e == Cancelled)
    requires EntryOk(s.log, e, s.registered, Joined(s, result))
    ensures LogOk(s', result)
  {
    hide EntryOk;
    hide Failures;
    forall i | 0 <= i < |s'.log| ensures EntryOk(s'.log[..i], s'.log[i], s'.registered, Joined(s', result)) {
      assert s'.log[..i] == s.log[..i];
      assert i == |s.log| ==> s.log[..i] == s.log;
    }
  }

  lemma EntersKeep(s: State, result: Results, registers: bool)
    requires Inv(s, result)
    ensures Inv(s.(calls := s.calls + [Entering(registers)]), result)
  {
    var s' := s.(calls := s.calls + [Entering(registers)]);
    hide Drained;
    hide LogOk;
    var h := HistoryOf(s.log, s.registered);
    hide HistoryOf;
    assert LogOk(s', result) by { LogSame(s, s', result); }
    forall j: nat | j < |s'.calls| ensures CallOk(s', h, result, j) {
      if j < |s.calls| {
        assert CallOk(s, h, result, j);
      }
    }
  }

  lemma LogSame(s: State, s': State, result: Results)
    requires LogOk(s, result) && s'.log == s.log && s'.registered == s.registered && s'.cancelled == s.cancelled
    requires s'.closed || s'.closed == s.closed
    ensures LogOk(s', result)
  {
    hide EntryOk;
    hide Failures;
  }

  lemma NextEntry(s: State, h: History, result: Results, e: Event)
    requires LogOk(s, result) && h == HistoryOf(s.log, s.registered)
    requires e.Started? ==> s.cancelled && e.cleanup !in h.started
    requires e.Finished? ==> e.cleanup in h.started && e.cleanup !in h.finished
    requires e.ClosedWith? ==> e.err == Joined(s, result) && forall x :: x in s.registered ==> x in h.finished
    ensures EntryOk(s.log, e, s.registered, Joined(s, result))
  {
    forall x ensures (x in h.started <==> Started(x) in s.log) && (x in h.finished <==> Finished(x) in s.log) {
      if Started(x) in s.log { assert Started(x).Started?; }
      if Finished(x) in s.log { assert Finished(x).Finished?; }
    }
  }

  lemma NoFailures(list: seq<nat>, result: Results)
    ensures Backwards(list, |list|) == [] && Failures(result, []) == []
  {
  }

  /** While the scope is open nothing has run, so one more registration changes no history. */
  lemma SilentLog(s: State, s': State, result: Results)
    requires LogOk(s, result) && !s.closed && !s'.closed && s'.log == s.log && s'.cancelled == s.cancelled
    ensures LogOk(s', result) && HistoryOf(s'.log, s'.registered) == HistoryOf(s.log, s.registered) == History({}, {}, [])
  {
    NoHistory(s.log, s.registered);
    NoHistory(s.log, s'.registered);
    assert forall i :: 0 <= i < |s.log| ==> s.log[i] in s.log;
  }

  /** The state after the closing call starts or finishes a cleanup. */
  ghost function Ran(s: State, i: nat, e: Event, c: Call): State
    requires i < |s.calls|
  {
    s.(log := s.log + [e], calls := s.calls[i := c])
  }

  ghost predicate RunsCleanup(s: State, i: nat, e: Event, c: Call)
  {
    && i < |s.calls| && s.closer == Some(i) && !s.done && Closing(s.calls[i]) && !Holds(s.calls[i]) && Closing(c) && !Holds(c)
    && match e
       case Started(x) => x in s.registered
       case Finished(x) => x in s.registered
       case _ => false
  }

  lemma CloserScope(s: State, h: History, result: Results, i: nat, e: Event, c: Call)
    requires ScopeOk(s, h, result) && RunsCleanup(s, i, e, c)
    ensures ScopeOk(Ran(s, i, e, c), Extended(h, s.registered, e), result)
  {
    hide Failures;
    hide Backwards;
  }

  /** Runs of registered cleanups do not touch the other calls. */
  lemma CloserOthers(s: State, h: History, result: Results, i: nat, e: Event, c: Call, j: nat)
    requires ScopeOk(s, h, result) && CallsOk(s, h, result) && RunsCleanup(s, i, e, c) && j < |s.calls| && j != i
    ensures CallOk(Ran(s, i, e, c), Extended(h, s.registered, e), result, j)
  {
    hide Failures;
    hide Backwards;
    assert CallOk(s, h, result, j);
  }

  lemma CloserLog(s: State, h: History, result: Results, i: nat, e: Event, c: Call)
    requires LogOk(s, result) && ScopeOk(s, h, result) && h == HistoryOf(s.log, s.registered) && RunsCleanup(s, i, e, c)
    requires e.Started? ==> e.cleanup !in h.started
    requires e.Finished? ==> e.cleanup in h.started && e.cleanup !in h.finished
    ensures LogOk(Ran(s, i, e, c), result)
    ensures HistoryOf(Ran(s, i, e, c).log, s.registered) == Extended(h, s.registered, e)
  {
    hide LogOk;
    hide HistoryOf;
    hide EntryOk;
    hide Failures;
    hide Backwards;
    HistoryGrows(s.log, s.registered, e);
    NextEntry(s, h, result, e);
    LogGrows(s, Ran(s, i, e, c), result, e);
  }

  lemma CloserCalls(s: State, h: History, result: Results, i: nat, e: Event, c: Call)
    requires ScopeOk(s, h, result) && CallsOk(s, h, result) && RunsCleanup(s, i, e, c)
    requires i < |s.calls| && CallOk(Ran(s, i, e, c), Extended(h, s.registered, e), result, i)
    ensures CallsOk(Ran(s, i, e, c), Extended(h, s.registered, e), result)
  {
    hide ScopeOk;
    hide CallOk;
    hide RunsCleanup;
    hide Extended;
    forall j: nat | j < |s.calls| ensures CallOk(Ran(s, i, e, c), Extended(h, s.registered, e), result, j) {
      if j != i {
        CloserOthers(s, h, result, i, e, c, j);
      }
    }
  }

  lemma InvParts(s: State, result: Results)
    ensures Inv(s, result) <==>
            ScopeOk(s, HistoryOf(s.log, s.registered), result) && CallsOk(s, HistoryOf(s.log, s.registered), result) && LogOk(s, result)
  {
  }

  lemma CloserKeeps(s: State, result: Results, i: nat, e: Event, c: Call)
    requires Inv(s, result) && RunsCleanup(s, i, e, c) && i < |s.calls|
    requires var h := HistoryOf(s.log, s.registered);
             && (e.Started? ==> e.cleanup !in h.started) && (e.Finished? ==> e.cleanup in h.started && e.cleanup !in h.finished)
             && CallOk(Ran(s, i, e, c), Extended(h, s.registered, e), result, i)
    ensures Inv(Ran(s, i, e, c), result)
  {
    assert Ran(s, i, e, c).registered == s.registered;
    hide *;
    var h := HistoryOf(s.log, s.registered);
    InvParts(s, result);
    InvParts(Ran(s, i, e, c), result);
    CloserLog(s, h, result, i, e, c);
    CloserScope(s, h, result, i, e, c);
    CloserCalls(s, h, result, i, e, c);
  }

  /** The closing call starts the last cleanup left. */
  lemma StartNext(s: State, result: Results, i: nat)
    requires Inv(s, result) && i < |s.calls| && s.calls[i].Draining? && s.calls[i].left != []
    ensures Inv(AdvanceCall(s, i, result).value, result)
  {
    var h := HistoryOf(s.log, s.registered);
    assert CallOk(s, h, result, i);
    var left := s.calls[i].left;
    var x := s.registered[|left| - 1];
    assert left[|left| - 1] == x;
    var c := Running(left, s.calls[i].errs);
    assert AdvanceCall(s, i, result) == Some(Ran(s, i, Started(x), c));
    StartedProgress(s.registered, h, |left|);
    StartedCall(s, h, result, i);
    hide *;
    CloserKeeps(s, result, i, Started(x), c);
  }

  lemma StartedCall(s: State, h: History, result: Results, i: nat)
    requires ScopeOk(s, h, result) && i < |s.calls| && CallOk(s, h, result, i) && s.calls[i].Draining? && s.calls[i].left != []
    ensures var left := s.calls[i].left;
            var x := left[|left| - 1];
            && RunsCleanup(s, i, Started(x), Running(left, s.calls[i].errs)) && x !in h.started
            && CallOk(Ran(s, i, Started(x), Running(left, s.calls[i].errs)), Extended(h, s.registered, Started(x)), result, i)
  {
    var left := s.calls[i].left;
    StartedProgress(s.registered, h, |left|);
    hide Failures;
    hide Backwards;
    assert left[|left| - 1] == s.registered[|left| - 1];
  }

  lemma StartedProgress(registered: seq<nat>, h: History, n: nat)
    requires 0 < n <= |registered| && Distinct(registered) && Progress(registered, h, n, n)
    ensures Progress(registered, Extended(h, registered, Started(registered[n - 1])), n - 1, n)
  {
    BackwardsStep(registered, n);
  }

  /** A cleanup that fails or panics is recorded, and the rest are left as they were. */
  lemma FinishNext(s: State, result: Results, i: nat)
    requires Inv(s, result) && i < |s.calls| && s.calls[i].Running? && s.calls[i].left != []
    ensures Inv(AdvanceCall(s, i, result).value, result)
  {
    var h := HistoryOf(s.log, s.registered);
    assert CallOk(s, h, result, i);
    var left := s.calls[i].left;
    var x := left[|left| - 1];
    var c := Draining(left[..|left| - 1], s.calls[i].errs + FailureOf(result, x));
    assert AdvanceCall(s, i, result) == Some(Ran(s, i, Finished(x), c));
    FinishedCall(s, h, result, i);
    hide *;
    CloserKeeps(s, result, i, Finished(x), c);
  }

  lemma FinishedCall(s: State, h: History, result: Results, i: nat)
    requires ScopeOk(s, h, result) && i < |s.calls| && CallOk(s, h, result, i) && s.calls[i].Running? && s.calls[i].left != []
    ensures var left := s.calls[i].left;
            var x := left[|left| - 1];
            var c := Draining(left[..|left| - 1], s.calls[i].errs + FailureOf(result, x));
            && RunsCleanup(s, i, Finished(x), c) && x in h.started && x !in h.finished
            && CallOk(Ran(s, i, Finished(x), c), Extended(h, s.registered, Finished(x)), result, i)
  {
    var left := s.calls[i].left;
    FinishedProgress(s.registered, h, |left|);
    FinishedErrs(s.registered, result, |left|);
    hide Failures;
    hide Backwards;
    hide FailureOf;
    assert left[|left| - 1] == s.registered[|left| - 1];
    assert left[..|left| - 1] == s.registered[..|left| - 1];
  }

  lemma FinishedProgress(registered: seq<nat>, h: History, n: nat)
    requires 0 < n <= |registered| && Distinct(registered) && Progress(registered, h, n - 1, n)
    ensures Progress(registered, h.(finished := h.finished + {registered[n - 1]}), n - 1, n - 1)
  {
  }

  lemma FinishedErrs(registered: seq<nat>, result: Results, n: nat)
    requires 0 < n <= |registered|
    ensures Failures(result, Backwards(registered, n - 1)) == Failures(result, Backwards(registered, n)) + FailureOf(result, registered[n - 1])
  {
    BackwardsStep(registered, n);
    FailuresSnoc(result, Backwards(registered, n), registered[n - 1]);
  }

  lemma FailuresSnoc(result: Results, order: seq<nat>, x: nat)
    ensures Failures(result, order + [x]) == Failures(result, order) + FailureOf(result, x)
  {
    assert (order + [x])[..|order|] == order;
  }

  /** The steps that log nothing and register nothing: taking a lock, giving one up, or turning from draining to storing. */
  ghost predicate Quiet(s: State, i: nat)
    requires i < |s.calls|
  {
    match s.calls[i]
    case Entering(_) => true
    case Storing(_) => true
    case StoreLocked(_) => true
    case CloseLocked => s.closed
    case RegisterLocked => s.closed
    case Draining(left, _) => left == []
    case _ => false
  }

  lemma QuietKeeps(s: State, result: Results, i: nat)
    requires Inv(s, result) && i < |s.calls| && Quiet(s, i) && AdvanceCall(s, i, result).Some?
    ensures Inv(AdvanceCall(s, i, result).value, result)
  {
    hide Drained;
    hide HistoryOf;
    hide Failures;
    hide LogOk;
    hide EntryOk;
    var s', h := AdvanceCall(s, i, result).value, HistoryOf(s.log, s.registered);
    LogSame(s, s', result);
    assert CallOk(s, h, result, i);
    assert s.calls[i].Draining? ==> forall k :: 0 <= k < |s.registered| ==> s.registered[k] in h.started && s.registered[k] in h.finished;
    forall j: nat | j < |s'.calls| ensures CallOk(s', h, result, j) {
      assert CallOk(s, h, result, j);
    }
  }

  /** The steps of a call that log one event: a late cleanup, a return from Close, or the cancellation. */
  ghost predicate Logs(s: State, i: nat, e: Event)
    requires i < |s.calls|
  {
    match s.calls[i]
    case Late => e == Started(i)
    case LateRunning => e == Finished(i)
    case Stored(err) => e == ClosedWith(i, err)
    case Waiting => e == ClosedWith(i, s.closeErr)
    case CloseLocked => !s.closed && e == Cancelled
    case _ => false
  }

  lemma EventKeeps(s: State, result: Results, i: nat, e: Event)
    requires Inv(s, result) && i < |s.calls| && Logs(s, i, e) && AdvanceCall(s, i, result).Some?
    ensures Inv(AdvanceCall(s, i, result).value, result)
  {
    hide Drained;
    hide HistoryOf;
    hide Failures;
    hide LogOk;
    hide EntryOk;
    hide Backwards;
    var s', h := AdvanceCall(s, i, result).value, HistoryOf(s.log, s.registered);
    assert CallOk(s, h, result, i);
    HistoryGrows(s.log, s.registered, e);
    NextEntry(s, h, result, e);
    LogGrows(s, s', result, e);
    forall j: nat | j < |s'.calls| ensures CallOk(s', Extended(h, s.registered, e), result, j) {
      assert CallOk(s, h, result, j);
    }
  }

  lemma ClosesKeeps(s: State, result: Results, i: nat)
    requires Inv(s, result) && i < |s.calls| && s.calls[i].CloseCancelled?
    ensures Inv(AdvanceCall(s, i, result).value, result)
  {
    hide Drained;
    hide HistoryOf;
    hide Failures;
    hide LogOk;
    hide EntryOk;
    var s', h := AdvanceCall(s, i, result).value, HistoryOf(s.log, s.registered);
    LogSame(s, s', result);
    NoFailures(s.registered, result);
    assert CallOk(s, h, result, i);
    forall j: nat | j < |s'.calls| ensures CallOk(s', h, result, j) {
      assert CallOk(s, h, result, j);
    }
  }

  lemma RegistersKeeps(s: State, result: Results, i: nat)
    requires Inv(s, result) && i < |s.calls| && s.calls[i].RegisterLocked? && !s.closed
    ensures Inv(AdvanceCall(s, i, result).value, result)
  {
    hide Drained;
    hide HistoryOf;
    hide Failures;
    hide LogOk;
    hide EntryOk;
    hide Backwards;
    var s', h := AdvanceCall(s, i, result).value, HistoryOf(s.log, s.registered);
    SilentLog(s, s', result);
    assert CallOk(s, h, result, i);
    forall j: nat | j < |s'.calls| ensures CallOk(s', h, result, j) {
      assert CallOk(s, h, result, j);
    }
  }

  // ----- Over every run

  lemma AdvanceKeeps(s: State, result: Results, i: nat)
    requires Inv(s, result) && i < |s.calls| && AdvanceCall(s, i, result).Some?
    ensures Inv(AdvanceCall(s, i, result).value, result)
  {
    hide Inv;
    if Quiet(s, i) {
      QuietKeeps(s, result, i);
    } else {
      match s.calls[i]
      case Late => EventKeeps(s, result, i, Started(i));
      case LateRunning => EventKeeps(s, result, i, Finished(i));
      case Stored(err) => EventKeeps(s, result, i, ClosedWith(i, err));
      case Waiting => EventKeeps(s, result, i, ClosedWith(i, s.closeErr));
      case CloseLocked => EventKeeps(s, result, i, Cancelled);
      case CloseCancelled => ClosesKeeps(s, result, i);
      case RegisterLocked => RegistersKeeps(s, result, i);
      case Draining(_, _) => StartNext(s, result, i);
      case Running(_, _) => FinishNext(s, result, i);
      case _ =>
    }
  }

  lemma ParentKeeps(s: State, result: Results)
    requires Inv(s, result)
    ensures Inv(Next(s, ParentCancels, result).value, result)
  {
    hide Drained;
    hide HistoryOf;
    hide Failures;
    hide Backwards;
    hide LogOk;
    hide EntryOk;
    var s', h := Next(s, ParentCancels, result).value, HistoryOf(s.log, s.registered);
    HistoryGrows(s.log, s.registered, Cancelled);
    NextEntry(s, h, result, Cancelled);
    LogGrows(s, s', result, Cancelled);
    forall j: nat | j < |s'.calls| ensures CallOk(s', h, result, j) {
      assert CallOk(s, h, result, j);
    }
  }

  /** The invariant holds after every run, whatever the interleaving. */
  lemma {:induction false} RunsAreSafe(steps: seq<Step>, result: Results)
    requires After(steps, result).Some?
    ensures Inv(After(steps, result).value, result)
    decreases |steps|
  {
    hide Inv;
    if steps == [] {
      InitialIsSafe(result);
    } else {
      var front := steps[..|steps| - 1];
      RunsAreSafe(front, result);
      var s := After(front, result).value;
      match steps[|steps| - 1]
      case BeginRegister => EntersKeep(s, result, true);
      case BeginClose => EntersKeep(s, result, false);
      case ParentCancels => ParentKeeps(s, result);
      case Advance(i) => AdvanceKeeps(s, result, i);
    }
  }

  lemma InitialIsSafe(result: Results)
    ensures Inv(Initial(), result)
  {
    NoHistory([], []);
  }

  /** No cleanup starts before the context is cancelled, and none starts or finishes twice. */
  lemma CancelledFirstAndOnce(steps: seq<Step>, result: Results, i: nat)
    requires After(steps, result).Some? && i < |After(steps, result).value.log|
    ensures var log := After(steps, result).value.log;
            && (log[i].Started? ==> Cancelled in log[..i])
            && (log[i].Started? || log[i].Finished? ==> log[i] !in log[..i])
            && (log[i].Finished? ==> Started(log[i].cleanup) in log[..i])
  {
    RunsAreSafe(steps, result);
    var s := After(steps, result).value;
    hide ScopeOk;
    hide CallOk;
    hide HistoryOf;
    assert EntryOk(s.log[..i], s.log[i], s.registered, Joined(s, result));
  }

  /** Cleanups registered before closing start in reverse order of registration, failures and panics notwithstanding. */
  lemma ReverseOrder(steps: seq<Step>, result: Results)
    requires After(steps, result).Some?
    ensures var s := After(steps, result).value;
            Drained(s.log, s.registered) <= Backwards(s.registered, 0)
  {
    RunsAreSafe(steps, result);
    var s := After(steps, result).value;
    var h := HistoryOf(s.log, s.registered);
    hide LogOk;
    hide Failures;
    if s.closed && !s.done {
      assert CallOk(s, h, result, s.closer.value);
      if n :| 0 <= n <= |s.registered| && h.drained == Backwards(s.registered, n) {
        BackwardsPrefix(s.registered, n);
      }
    }
  }

  lemma BackwardsPrefix(list: seq<nat>, n: nat)
    requires n <= |list|
    ensures Backwards(list, n) <= Backwards(list, 0)
  {
  }

  /** No Close returns until every registered cleanup has finished, and all of them return the same joined error. */
  lemma ClosesAgree(steps: seq<Step>, result: Results, i: nat)
    requires After(steps, result).Some? && i < |After(steps, result).value.log| && After(steps, result).value.log[i].ClosedWith?
    ensures var s := After(steps, result).value;
            && s.log[i].err == Failures(result, Backwards(s.registered, 0))
            && forall x :: x in s.registered ==> Finished(x) in s.log[..i]
  {
    RunsAreSafe(steps, result);
    var s := After(steps, result).value;
    hide ScopeOk;
    hide CallOk;
    hide HistoryOf;
    assert EntryOk(s.log[..i], s.log[i], s.registered, Joined(s, result));
  }

  // ----- What Close reports

  /** The cleanups of `errs` come in the order of `order`. */
  ghost predicate InOrderOf(errs: seq<Failure>, order: seq<nat>)
  {
    forall j, k :: 0 <= j < k < |errs| ==>
      exists p, q :: 0 <= p < q < |order| && order[p] == errs[j].cleanup && order[q] == errs[k].cleanup
  }

  lemma {:induction false} FailuresMean(result: Results, order: seq<nat>)
    ensures forall f :: f in Failures(result, order) <==> f.cleanup in order && result(f.cleanup) != Succeeded && f.result == result(f.cleanup)
    ensures InOrderOf(Failures(result, order), order)
    decreases |order|
  {
    if order != [] {
      var front, x := order[..|order| - 1], order[|order| - 1];
      FailuresMean(result, front);
      assert order == front + [x] && x in order && forall y :: y in order <==> y in front || y == x;
      var before, errs := Failures(result, front), Failures(result, order);
      forall j, k | 0 <= j < k < |errs|
        ensures exists p, q :: 0 <= p < q < |order| && order[p] == errs[j].cleanup && order[q] == errs[k].cleanup
      {
        if k < |before| {
          var p, q :| 0 <= p < q < |front| && front[p] == before[j].cleanup && front[q] == before[k].cleanup;
          assert order[p] == errs[j].cleanup && order[q] == errs[k].cleanup;
        } else {
          assert before[j] in before;
          var p :| 0 <= p < |front| && front[p] == before[j].cleanup;
          assert order[p] == errs[j].cleanup && order[|front|] == errs[k].cleanup;
        }
      }
    }
  }

  /** The error names exactly the registered cleanups that failed or panicked, each once, with how it ended, the last
      registered first; there is none exactly when every registered cleanup succeeded. */
  ghost predicate Reports(err: seq<Failure>, registered: seq<nat>, result: Results)
  {
    && (err == [] <==> forall x :: x in registered ==> result(x) == Succeeded)
    && (forall f :: f in err <==> f.cleanup in registered && result(f.cleanup) != Succeeded && f.result == result(f.cleanup))
    && (forall j, k :: 0 <= j < k < |err| ==> ReverseRegistered(registered, err[j].cleanup, err[k].cleanup))
  }

  /** The first was registered after the second. */
  ghost predicate ReverseRegistered(registered: seq<nat>, x: nat, y: nat)
  {
    x != y && exists p, q :: 0 <= q < p < |registered| && registered[p] == x && registered[q] == y
  }

  lemma CloseReportsFailures(steps: seq<Step>, result: Results, i: nat)
    requires After(steps, result).Some? && i < |After(steps, result).value.log| && After(steps, result).value.log[i].ClosedWith?
    ensures Reports(After(steps, result).value.log[i].err, After(steps, result).value.registered, result)
  {
    ClosesAgree(steps, result, i);
    RegisteredOnce(steps, result);
    hide After;
    FailuresReport(After(steps, result).value.registered, result);
  }

  lemma FailuresReport(list: seq<nat>, result: Results)
    requires Distinct(list)
    ensures Reports(Failures(result, Backwards(list, 0)), list, result)
  {
    var order := Backwards(list, 0);
    var err := Failures(result, order);
    FailuresMean(result, order);
    BackwardsMembers(list);
    hide Failures, Backwards;
    forall j, k | 0 <= j < k < |err| ensures ReverseRegistered(list, err[j].cleanup, err[k].cleanup) {
      var a, b :| 0 <= a < b < |order| && order[a] == err[j].cleanup && order[b] == err[k].cleanup;
      assert list[|list| - 1 - a] == err[j].cleanup && list[|list| - 1 - b] == err[k].cleanup;
    }
    NoneReported(list, result, err);
  }

  lemma NoneReported(list: seq<nat>, result: Results, err: seq<Failure>)
    requires forall f :: f in err <==> f.cleanup in list && result(f.cleanup) != Succeeded && f.result == result(f.cleanup)
    ensures err == [] <==> forall x :: x in list ==> result(x) == Succeeded
  {
    if x :| x in list && result(x) != Succeeded {
      assert Failure(x, result(x)) in err;
    }
    if err != [] {
      assert err[0] in err;
    }
  }

  lemma BackwardsMembers(list: seq<nat>)
    ensures forall x :: x in Backwards(list, 0) <==> x in list
    ensures |Backwards(list, 0)| == |list| && forall a :: 0 <= a < |list| ==> Backwards(list, 0)[a] == list[|list| - 1 - a]
  {
    var order := Backwards(list, 0);
    forall x | x in list ensures x in order {
      var p :| 0 <= p < |list| && list[p] == x;
      assert order[|list| - 1 - p] == x;
    }
  }

  lemma RegisteredOnce(steps: seq<Step>, result: Results)
    requires After(steps, result).Some?
    ensures Distinct(After(steps, result).value.registered)
  {
    RunsAreSafe(steps, result);
    hide CallsOk, LogOk, HistoryOf;
  }

  /** Of two registered cleanups the later registered starts first, whatever happens in between. */
  lemma LastRegisteredStartsFirst(steps: seq<Step>, result: Results, p: nat, q: nat, i: nat, j: nat)
    requires After(steps, result).Some?
    requires var s := After(steps, result).value;
             q < p < |s.registered| && i < |s.log| && j < |s.log| && s.log[i] == Started(s.registered[p]) && s.log[j] == Started(s.registered[q])
    ensures i < j
  {
    var s := After(steps, result).value;
    ReverseOrder(steps, result);
    RegisteredOnce(steps, result);
    hide After, Drained, Backwards;
    BackwardsMembers(s.registered);
    DrainedAt(s.log, s.registered, i);
    DrainedAt(s.log, s.registered, j);
    if j < i {
      DrainedLater(s.log, s.registered, j, i);
    }
  }

  lemma {:induction false} DrainedAt(log: seq<Event>, registered: seq<nat>, i: nat)
    requires i < |log| && log[i].Started? && log[i].cleanup in registered
    ensures |Drained(log[..i], registered)| < |Drained(log, registered)|
    ensures Drained(log, registered)[|Drained(log[..i], registered)|] == log[i].cleanup
    decreases |log|
  {
    var front := log[..|log| - 1];
    if i < |front| {
      assert front[..i] == log[..i];
      DrainedAt(front, registered, i);
    }
  }

  lemma DrainedLater(log: seq<Event>, registered: seq<nat>, j: nat, i: nat)
    requires j < i <= |log| && log[j].Started? && log[j].cleanup in registered
    ensures |Drained(log[..j], registered)| < |Drained(log[..i], registered)|
  {
    assert log[..i][..j] == log[..j];
    DrainedAt(log[..i], registered, j);
  }

  // ----- Nothing waits for ever

  ghost predicate Over(c: Call)
  {
    c.Registered? || c.Returned?
  }

  /** While some call has not returned, some call can take a step. */
  lemma NeverStuck(steps: seq<Step>, result: Results)
    requires After(steps, result).Some?
    requires exists i :: 0 <= i < |After(steps, result).value.calls| && !Over(After(steps, result).value.calls[i])
    ensures var s := After(steps, result).value;
            exists i: nat :: i < |s.calls| && AdvanceCall(s, i, result).Some?
  {
    RunsAreSafe(steps, result);
    var s := After(steps, result).value;
    SomeCallMoves(s, result);
  }

  lemma SomeCallMoves(s: State, result: Results)
    requires Inv(s, result) && exists i :: 0 <= i < |s.calls| && !Over(s.calls[i])
    ensures exists i: nat :: i < |s.calls| && AdvanceCall(s, i, result).Some?
  {
    hide LogOk;
    hide HistoryOf;
    hide Failures;
    hide Backwards;
    hide Progress;
    hide AllFinished;
    var h := HistoryOf(s.log, s.registered);
    var i :| 0 <= i < |s.calls| && !Over(s.calls[i]);
    assert CallOk(s, h, result, i);
    if s.lock.Some? {
      assert CallOk(s, h, result, s.lock.value);
      assert AdvanceCall(s, s.lock.value, result).Some?;
    } else if s.calls[i].Waiting? && !s.done {
      assert CallOk(s, h, result, s.closer.value);
      assert AdvanceCall(s, s.closer.value, result).Some?;
    } else {
      assert AdvanceCall(s, i, result).Some?;
    }
  }

  /** What a call has yet to do, counting two steps for every cleanup it holds. */
  function Rank(c: Call): nat
  {
    match c
    case Entering(_) => 9
    case RegisterLocked => 8
    case Late => 2
    case LateRunning => 1
    case Registered => 0
    case CloseLocked => 8
    case CloseCancelled => 7
    case Draining(left, _) => 2 * |left| + 5
    case Running(left, _) => 2 * |left| + 4
    case Storing(_) => 4
    case StoreLocked(_) => 3
    case Stored(_) => 2
    case Waiting => 1
    case Returned(_) => 0
  }

  function TotalRank(calls: seq<Call>): nat
  {
    if calls == [] then 0 else TotalRank(calls[..|calls| - 1]) + Rank(calls[|calls| - 1])
  }

  function Work(s: State): nat
  {
    TotalRank(s.calls) + 2 * |s.cleanups|
  }

  lemma {:induction false} TotalAfterUpdate(calls: seq<Call>, i: nat, c: Call)
    requires i < |calls|
    ensures TotalRank(calls[i := c]) == TotalRank(calls) - Rank(calls[i]) + Rank(c)
    decreases |calls|
  {
    var front := calls[..|calls| - 1];
    if i == |calls| - 1 {
      assert calls[i := c][..i] == front;
    } else {
      assert calls[i := c][..|calls| - 1] == front[i := c];
      TotalAfterUpdate(front, i, c);
    }
  }

  /** Every step of a call uses up work, so once calls stop arriving a run cannot go on for ever. */
  lemma WorkShrinks(s: State, result: Results, i: nat)
    requires i < |s.calls| && AdvanceCall(s, i, result).Some?
    ensures Work(AdvanceCall(s, i, result).value) < Work(s)
  {
    hide Rank;
    hide StepOf;
    hide TotalRank;
    RankShrinks(s, result, i);
    TotalAfterUpdate(s.calls, i, StepOf(s, i, result).value.1);
  }

  lemma RankShrinks(s: State, result: Results, i: nat)
    requires i < |s.calls| && StepOf(s, i, result).Some?
    ensures var t := StepOf(s, i, result).value;
            Rank(t.1) + 2 * |t.0.cleanups| < Rank(s.calls[i]) + 2 * |s.cleanups|
  {
    hide FailureOf;
    match s.calls[i]
    case Draining(left, errs) =>
    case Running(left, errs) =>
      assert StepOf(s, i, result).value.1.left == left[..|left| - 1];
    case RegisterLocked =>
    case CloseCancelled =>
    case _ => KeepsCleanups(s, result, i);
  }

  lemma KeepsCleanups(s: State, result: Results, i: nat)
    requires i < |s.calls| && StepOf(s, i, result).Some?
    requires !s.calls[i].RegisterLocked? && !s.calls[i].CloseCancelled? && !s.calls[i].Draining? && !s.calls[i].Running?
    ensures StepOf(s, i, result).value.0.cleanups == s.cleanups
    ensures Rank(StepOf(s, i, result).value.1) < Rank(s.calls[i])
  {
  }

  /** When every call has returned and one of them was a Close, every cleanup ever brought has run exactly once:
      the late ones too, in whatever order they came. */
  lemma ExactlyOnce(steps: seq<Step>, result: Results, x: nat)
    requires After(steps, result).Some?
    requires forall i :: 0 <= i < |After(steps, result).value.calls| ==> Over(After(steps, result).value.calls[i])
    requires exists i :: 0 <= i < |After(steps, result).value.calls| && After(steps, result).value.calls[i].Returned?
    requires x < |After(steps, result).value.calls| && After(steps, result).value.calls[x].Registered?
    ensures var log := After(steps, result).value.log;
            && Started(x) in log && Finished(x) in log
            && forall i, j :: 0 <= i < j < |log| && log[i].Started? && log[i].cleanup == x ==> log[j] != log[i]
  {
    RunsAreSafe(steps, result);
    var s := After(steps, result).value;
    var h := HistoryOf(s.log, s.registered);
    var c :| 0 <= c < |s.calls| && s.calls[c].Returned?;
    assert CallOk(s, h, result, c);
    assert CallOk(s, h, result, x);
    InHistory(s.log, s.registered, x);
    forall i, j | 0 <= i < j < |s.log| && s.log[i].Started? && s.log[i].cleanup == x ensures s.log[j] != s.log[i] {
      CancelledFirstAndOnce(steps, result, j);
      assert s.log[..j][i] == s.log[i];
    }
  }

  lemma InHistory(log: seq<Event>, registered: seq<nat>, x: nat)
    ensures x in HistoryOf(log, registered).started <==> Started(x) in log
    ensures x in HistoryOf(log, registered).finished <==> Finished(x) in log
  {
    if Started(x) in log { assert Started(x).Started?; }
    if Finished(x) in log { assert Finished(x).Finished?; }
  }
}
