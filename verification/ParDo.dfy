/** The bounded parallel map over channels (internal/pipe/pipe.go:77-105), as the
    interleaving of the ranging goroutine, one goroutine per item, and the consumer. */
module ParDo {

  const MAX_INT: int := 0x7fff_ffff_ffff_ffff

  /** What the combinator is applied to: the items `in` delivers before it is closed, what
      fn sends for each, the requested concurrency, and the capacity of `out`. */
  datatype Config = Config(input: seq<int>, fn: int -> seq<int>, concurrency: int, width: nat)

  /** The token bucket's capacity: a negative concurrency means no bound. */
  function Tokens(c: Config): nat {
    if c.concurrency < 0 then MAX_INT else c.concurrency
  }

  /** The goroutine of one item: in fn having sent so many values, back from fn, token
      given back, counted as done. */
  datatype Stage = Running(sent: nat) | Returned | Released | Finished
  datatype Task = Task(item: int, stage: Stage)

  datatype Main = Ranging | Acquiring(item: int) | Waiting | Closed

  /** `out` is everything ever sent, of which the consumer has taken the first `taken`. */
  datatype State = State(main: Main, received: nat, wg: int, bucket: int, tasks: seq<Task>, out: seq<int>, taken: nat)

  datatype Action =
    | Receive             // range delivers an item; wg.Add
    | EndRange            // `in` is closed and drained
    | Acquire             // a token is put in the bucket; the goroutine starts
    | Send(i: nat)        // into the buffer of out
    | HandOff(i: nat)     // straight to the waiting consumer of an unbuffered out
    | Return(i: nat)
    | Release(i: nat)
    | TaskDone(i: nat)
    | Take                // the consumer
    | Close               // wg.Wait returned

  predicate CanSend(c: Config, s: State, i: nat) {
    && i < |s.tasks|
    && s.tasks[i].stage.Running?
    && s.tasks[i].stage.sent < |c.fn(s.tasks[i].item)|
  }

  predicate Enabled(c: Config, s: State, a: Action) {
    match a
    case Receive => s.main.Ranging? && s.received < |c.input|
    case EndRange => s.main.Ranging? && s.received == |c.input|
    case Acquire => s.main.Acquiring? && s.bucket < Tokens(c)
    case Send(i) => CanSend(c, s, i) && |s.out| - s.taken < c.width
    case HandOff(i) => CanSend(c, s, i) && c.width == 0 && s.taken == |s.out|
    case Return(i) => i < |s.tasks| && s.tasks[i].stage == Running(|c.fn(s.tasks[i].item)|)
    case Release(i) => i < |s.tasks| && s.tasks[i].stage.Returned?
    case TaskDone(i) => i < |s.tasks| && s.tasks[i].stage.Released?
    case Take => s.taken < |s.out|
    case Close => s.main.Waiting? && s.wg == 0
  }

  function Move(tasks: seq<Task>, i: nat, stage: Stage): seq<Task>
    requires i < |tasks|
  {
    tasks[i := Task(tasks[i].item, stage)]
  }

  function Do(c: Config, s: State, a: Action): State
    requires Enabled(c, s, a)
  {
    match a
    case Receive => s.(main := Acquiring(c.input[s.received]), received := s.received + 1, wg := s.wg + 1)
    case EndRange => s.(main := Waiting)
    case Acquire => s.(main := Ranging, bucket := s.bucket + 1, tasks := s.tasks + [Task(s.main.item, Running(0))])
    case Send(i) => Emit(c, s, i)
    case HandOff(i) => Emit(c, s, i).(taken := s.taken + 1)
    case Return(i) => s.(tasks := Move(s.tasks, i, Returned))
    case Release(i) => s.(tasks := Move(s.tasks, i, Released), bucket := s.bucket - 1)
    case TaskDone(i) => s.(tasks := Move(s.tasks, i, Finished), wg := s.wg - 1)
    case Take => s.(taken := s.taken + 1)
    case Close => s.(main := Closed)
  }

  function Emit(c: Config, s: State, i: nat): State
    requires CanSend(c, s, i)
  {
    var t := s.tasks[i];
    s.(out := s.out + [c.fn(t.item)[t.stage.sent]], tasks := Move(s.tasks, i, Running(t.stage.sent + 1)))
  }

  const START := State(Ranging, 0, 0, 0, [], [], 0)

  ghost predicate Behaves(c: Config, states: seq<State>, trace: seq<Action>) {
    && |states| == |trace| + 1
    && states[0] == START
    && forall i :: 0 <= i < |trace| ==> Enabled(c, states[i], trace[i]) && states[i + 1] == Do(c, states[i], trace[i])
  }

  // ----- summing over the goroutines -----

  /** Tasks that hold a token. */
  function Holding(tasks: seq<Task>): nat {
    if tasks == [] then 0
    else Holding(tasks[..|tasks| - 1]) + if HasToken(tasks[|tasks| - 1]) then 1 else 0
  }

  predicate HasToken(t: Task) { t.stage.Running? || t.stage.Returned? }

  /** Calls of fn under way. */
  function InFlight(tasks: seq<Task>): nat {
    if tasks == [] then 0
    else InFlight(tasks[..|tasks| - 1]) + if tasks[|tasks| - 1].stage.Running? then 1 else 0
  }

  /** Tasks wg still waits for. */
  function Unfinished(tasks: seq<Task>): nat {
    if tasks == [] then 0
    else Unfinished(tasks[..|tasks| - 1]) + if tasks[|tasks| - 1].stage.Finished? then 0 else 1
  }

  /** What a task has sent so far. */
  function SentBy(c: Config, t: Task): seq<int> {
    var all := c.fn(t.item);
    if t.stage.Running? && t.stage.sent <= |all| then all[..t.stage.sent] else all
  }

  /** What all tasks have sent, without order. */
  function SentByAll(c: Config, tasks: seq<Task>): multiset<int> {
    if tasks == [] then multiset{}
    else SentByAll(c, tasks[..|tasks| - 1]) + multiset(SentBy(c, tasks[|tasks| - 1]))
  }

  /** The outputs of all items, one item after the other: what `do` sends. */
  function InOrder(c: Config, items: seq<int>): seq<int> {
    if items == [] then [] else InOrder(c, items[..|items| - 1]) + c.fn(items[|items| - 1])
  }

  lemma {:induction false} MoveCounts(tasks: seq<Task>, i: nat, t: Task)
    requires i < |tasks|
    ensures Holding(tasks[i := t]) == Holding(tasks) - (if HasToken(tasks[i]) then 1 else 0)
            + (if HasToken(t) then 1 else 0)
    ensures Unfinished(tasks[i := t]) == Unfinished(tasks) - (if tasks[i].stage.Finished? then 0 else 1)
            + (if t.stage.Finished? then 0 else 1)
  {
    var n := |tasks| - 1;
    if i < n {
      MoveCounts(tasks[..n], i, t);
      assert tasks[i := t][..n] == tasks[..n][i := t];
    } else {
      assert tasks[i := t][..n] == tasks[..n];
    }
  }

  lemma {:induction false} MoveSent(c: Config, tasks: seq<Task>, i: nat, t: Task, more: multiset<int>)
    requires i < |tasks| && multiset(SentBy(c, t)) == multiset(SentBy(c, tasks[i])) + more
    ensures SentByAll(c, tasks[i := t]) == SentByAll(c, tasks) + more
  {
    hide SentBy;
    var n := |tasks| - 1;
    if i < n {
      MoveSent(c, tasks[..n], i, t, more);
      assert tasks[i := t][..n] == tasks[..n][i := t];
    } else {
      assert tasks[i := t][..n] == tasks[..n];
    }
  }

  lemma {:induction false} InFlightHold(tasks: seq<Task>)
    ensures InFlight(tasks) <= Holding(tasks)
  {
    if tasks != [] { InFlightHold(tasks[..|tasks| - 1]); }
  }

  lemma {:induction false} SomeoneHolds(tasks: seq<Task>) returns (i: nat)
    requires Holding(tasks) > 0
    ensures i < |tasks| && HasToken(tasks[i])
  {
    var n := |tasks| - 1;
    if HasToken(tasks[n]) { i := n; } else { i := SomeoneHolds(tasks[..n]); }
  }

  lemma {:induction false} SomeoneUnfinished(tasks: seq<Task>) returns (i: nat)
    requires Unfinished(tasks) > 0
    ensures i < |tasks| && !tasks[i].stage.Finished?
  {
    var n := |tasks| - 1;
    if !tasks[n].stage.Finished? { i := n; } else { i := SomeoneUnfinished(tasks[..n]); }
  }

  lemma {:induction false} AllFinished(tasks: seq<Task>, i: nat)
    requires Unfinished(tasks) == 0 && i < |tasks|
    ensures tasks[i].stage.Finished?
  {
    var n := |tasks| - 1;
    if i < n { AllFinished(tasks[..n], i); }
  }

  lemma {:induction false} NoneHolds(tasks: seq<Task>, i: nat)
    requires Holding(tasks) == 0 && i < |tasks|
    ensures !HasToken(tasks[i])
  {
    var n := |tasks| - 1;
    if i < n { NoneHolds(tasks[..n], i); }
  }

  // ----- invariant -----

  /** The items handed to goroutines, plus the one waiting for a token, are what was received. */
  ghost predicate Dealt(c: Config, s: State) {
    && s.received <= |c.input|
    && |s.tasks| == s.received - (if s.main.Acquiring? then 1 else 0)
    && (forall i :: 0 <= i < |s.tasks| ==> s.tasks[i].item == c.input[i])
    && (s.main.Acquiring? ==> s.received > 0 && s.main.item == c.input[s.received - 1])
    && (s.main.Waiting? || s.main.Closed? ==> s.received == |c.input|)
    && (s.main.Closed? ==> s.wg == 0)
  }

  ghost predicate SentWithin(c: Config, tasks: seq<Task>) {
    forall i :: 0 <= i < |tasks| && tasks[i].stage.Running? ==> tasks[i].stage.sent <= |c.fn(tasks[i].item)|
  }

  ghost predicate Counted(c: Config, s: State) {
    && s.wg == Unfinished(s.tasks) + (if s.main.Acquiring? then 1 else 0)
    && s.bucket == Holding(s.tasks) <= Tokens(c)
    && s.taken <= |s.out|
  }

  ghost predicate Inv(c: Config, s: State) {
    && Dealt(c, s)
    && Counted(c, s)
    && SentWithin(c, s.tasks)
    && multiset(s.out) == SentByAll(c, s.tasks)
  }

  lemma EmitSends(c: Config, tasks: seq<Task>, i: nat)
    requires i < |tasks| && tasks[i].stage.Running? && tasks[i].stage.sent < |c.fn(tasks[i].item)|
             && SentWithin(c, tasks)
    ensures var t := tasks[i];
            var moved := Move(tasks, i, Running(t.stage.sent + 1));
            SentWithin(c, moved) && SentByAll(c, moved) == SentByAll(c, tasks) + multiset{c.fn(t.item)[t.stage.sent]}
  {
    var t := tasks[i];
    var t' := Task(t.item, Running(t.stage.sent + 1));
    var x := c.fn(t.item)[t.stage.sent];
    assert SentBy(c, t') == SentBy(c, t) + [x];
    MoveSent(c, tasks, i, t', multiset{x});
  }

  lemma EmitKeeps(c: Config, s: State, i: nat)
    requires Inv(c, s) && CanSend(c, s, i)
    ensures Inv(c, Emit(c, s, i))
  {
    EmitSends(c, s.tasks, i);
    EmitKeepsCounts(c, s, i);
    hide SentByAll, SentWithin, Counted, Dealt, Move;
  }

  lemma EmitKeepsCounts(c: Config, s: State, i: nat)
    requires Dealt(c, s) && Counted(c, s) && CanSend(c, s, i)
    ensures Counted(c, Emit(c, s, i)) && Dealt(c, Emit(c, s, i))
  {
    MoveCounts(s.tasks, i, Task(s.tasks[i].item, Running(s.tasks[i].stage.sent + 1)));
    hide Holding, Unfinished;
  }

  lemma AcquireKeeps(c: Config, s: State)
    requires Inv(c, s) && Enabled(c, s, Acquire)
    ensures Inv(c, Do(c, s, Acquire))
  {
    var t := Task(s.main.item, Running(0));
    assert (s.tasks + [t])[..|s.tasks|] == s.tasks;
    assert SentBy(c, t) == [];
  }

  lemma MovedTask(c: Config, tasks: seq<Task>, i: nat, stage: Stage)
    requires i < |tasks| && !stage.Running? && SentWithin(c, tasks)
    requires tasks[i].stage.Running? ==> tasks[i].stage.sent == |c.fn(tasks[i].item)|
    ensures SentWithin(c, Move(tasks, i, stage))
    ensures SentByAll(c, Move(tasks, i, stage)) == SentByAll(c, tasks)
  {
    var t := Task(tasks[i].item, stage);
    assert SentBy(c, t) == SentBy(c, tasks[i]);
    MoveSent(c, tasks, i, t, multiset{});
  }

  lemma MoveKeeps(c: Config, s: State, a: Action)
    requires Inv(c, s) && Enabled(c, s, a) && (a.Return? || a.Release? || a.TaskDone?)
    ensures Inv(c, Do(c, s, a))
  {
    var stage := if a.Return? then Returned else if a.Release? then Released else Finished;
    MovedTask(c, s.tasks, a.i, stage);
    MoveKeepsCounts(c, s, a);
    hide SentByAll, SentWithin, Counted, Dealt;
  }

  lemma MoveKeepsCounts(c: Config, s: State, a: Action)
    requires Dealt(c, s) && Counted(c, s) && Enabled(c, s, a) && (a.Return? || a.Release? || a.TaskDone?)
    ensures Counted(c, Do(c, s, a)) && Dealt(c, Do(c, s, a))
  {
    var stage := if a.Return? then Returned else if a.Release? then Released else Finished;
    MoveCounts(s.tasks, a.i, Task(s.tasks[a.i].item, stage));
    hide Holding, Unfinished;
  }

  lemma StepKeeps(c: Config, s: State, a: Action)
    requires Inv(c, s) && Enabled(c, s, a)
    ensures Inv(c, Do(c, s, a))
  {
    match a
    case Acquire => AcquireKeeps(c, s);
    case Send(i) => EmitKeeps(c, s, i);
    case HandOff(i) => EmitKeeps(c, s, i);
    case Return(_) => MoveKeeps(c, s, a);
    case Release(_) => MoveKeeps(c, s, a);
    case TaskDone(_) => MoveKeeps(c, s, a);
    case _ =>
  }

  lemma {:induction false} AlwaysInv(c: Config, states: seq<State>, trace: seq<Action>, i: nat)
    requires Behaves(c, states, trace) && i <= |trace|
    ensures Inv(c, states[i])
  {
    if i > 0 {
      AlwaysInv(c, states, trace, i - 1);
      StepKeeps(c, states[i - 1], trace[i - 1]);
    }
  }

  // ----- what callers may rely on -----

  /** Never more than the requested number of calls of fn are under way, nor, with a negative
      request, more than the largest int. */
  lemma CallsAreBounded(c: Config, states: seq<State>, trace: seq<Action>, i: nat)
    requires Behaves(c, states, trace) && i <= |trace|
    ensures InFlight(states[i].tasks) <= if c.concurrency < 0 then 0x7fff_ffff_ffff_ffff else c.concurrency
  {
    AlwaysInv(c, states, trace, i);
    InFlightHold(states[i].tasks);
  }

  /** And that many can be: with n items at least and room for n, some run has n calls under
      way at once, one for each of the first n items. */
  lemma {:induction false} AsManyAtOnce(c: Config, n: nat) returns (states: seq<State>, trace: seq<Action>)
    requires n <= |c.input| && n <= if c.concurrency < 0 then 0x7fff_ffff_ffff_ffff else c.concurrency
    ensures Behaves(c, states, trace) && InFlight(states[|trace|].tasks) == n
    ensures states[|trace|] == Begun(c, n)
  {
    BegunAreRunning(c, n);
    if n == 0 {
      states, trace := [START], [];
    } else {
      states, trace := AsManyAtOnce(c, n - 1);
      var s := states[|trace|];
      var received := Do(c, s, Receive);
      var begun := Do(c, received, Acquire);
      assert begun.tasks == Begun(c, n).tasks;
      states, trace := states + [received, begun], trace + [Receive, Acquire];
    }
  }

  /** n items received, each with a token and a call that has sent nothing yet. */
  ghost function Begun(c: Config, n: nat): State
    requires n <= |c.input|
  {
    State(Ranging, n, n, n, seq(n, i requires 0 <= i < n => Task(c.input[i], Running(0))), [], 0)
  }

  lemma {:induction false} BegunAreRunning(c: Config, n: nat)
    requires n <= |c.input|
    ensures InFlight(Begun(c, n).tasks) == n
  {
    if n > 0 {
      BegunAreRunning(c, n - 1);
      assert Begun(c, n).tasks[..n - 1] == Begun(c, n - 1).tasks;
    }
  }

  /** Once out is closed nothing is sent, and no goroutine is left. */
  lemma NothingAfterClose(c: Config, states: seq<State>, trace: seq<Action>, i: nat, a: Action)
    requires Behaves(c, states, trace) && i <= |trace| && states[i].main.Closed?
    ensures Enabled(c, states[i], a) ==> a.Take?
    ensures forall k :: 0 <= k < |states[i].tasks| ==> states[i].tasks[k].stage.Finished?
  {
    AlwaysInv(c, states, trace, i);
    var tasks := states[i].tasks;
    forall k | 0 <= k < |tasks| ensures tasks[k].stage.Finished? {
      AllFinished(tasks, k);
    }
  }

  lemma {:induction false} AllSent(c: Config, tasks: seq<Task>, items: seq<int>)
    requires |tasks| == |items|
    requires forall k :: 0 <= k < |tasks| ==> tasks[k].item == items[k] && tasks[k].stage.Finished?
    ensures SentByAll(c, tasks) == multiset(InOrder(c, items))
  {
    if tasks != [] {
      var n := |tasks| - 1;
      AllSent(c, tasks[..n], items[..n]);
    }
  }

  /** When out is closed fn has been called exactly once for each item received from in,
      and everything those calls sent, and nothing else, is in out. */
  lemma ClosedIsComplete(c: Config, states: seq<State>, trace: seq<Action>, i: nat)
    requires Behaves(c, states, trace) && i <= |trace| && states[i].main.Closed?
    ensures |states[i].tasks| == |c.input|
    ensures forall k :: 0 <= k < |c.input| ==> states[i].tasks[k] == Task(c.input[k], Finished)
    ensures multiset(states[i].out) == multiset(InOrder(c, c.input))
  {
    AlwaysInv(c, states, trace, i);
    NothingAfterClose(c, states, trace, i, Close);
    AllSent(c, states[i].tasks, c.input);
  }

  // ----- progress -----

  /** Some step is possible in every state before the close, unless there is no token at all. */
  lemma NeverStuck(c: Config, states: seq<State>, trace: seq<Action>, i: nat) returns (a: Action)
    requires Behaves(c, states, trace) && i <= |trace| && !states[i].main.Closed?
    requires Tokens(c) > 0 || c.input == []
    ensures Enabled(c, states[i], a)
  {
    AlwaysInv(c, states, trace, i);
    var s := states[i];
    match s.main
    case Ranging => a := if s.received < |c.input| then Receive else EndRange;
    case Acquiring(_) =>
      if s.bucket < Tokens(c) { a := Acquire; } else {
        var k := SomeoneHolds(s.tasks);
        a := TaskStep(c, s, k);
      }
    case Waiting =>
      if s.wg == 0 { a := Close; } else {
        var k := SomeoneUnfinished(s.tasks);
        a := TaskStep(c, s, k);
      }
  }

  /** The next step for an unfinished task: its own, or the consumer making room for it. */
  lemma TaskStep(c: Config, s: State, k: nat) returns (a: Action)
    requires Inv(c, s) && k < |s.tasks| && !s.tasks[k].stage.Finished?
    ensures Enabled(c, s, a)
  {
    match s.tasks[k].stage
    case Running(n) =>
      a := if n == |c.fn(s.tasks[k].item)| then Return(k)
           else if |s.out| - s.taken < c.width then Send(k)
           else if s.taken < |s.out| then Take
           else HandOff(k);
    case Returned => a := Release(k);
    case Released => a := TaskDone(k);
  }

  function Work(c: Config, t: Task): nat {
    var n := |c.fn(t.item)|;
    match t.stage
    case Running(k) => k
    case Returned => n + 1
    case Released => n + 2
    case Finished => n + 3
  }

  function TotalWork(c: Config, tasks: seq<Task>): nat {
    if tasks == [] then 0 else TotalWork(c, tasks[..|tasks| - 1]) + Work(c, tasks[|tasks| - 1])
  }

  function Progress(c: Config, s: State): nat {
    s.received + |s.tasks| + TotalWork(c, s.tasks) + s.taken
    + (match s.main case Waiting => 1 case Closed => 2 case _ => 0)
  }

  /** The number of steps no run exceeds: 5 an item, 2 an output, 2 to finish. */
  function Bound(c: Config): nat {
    5 * |c.input| + 2 * |InOrder(c, c.input)| + 2
  }

  lemma {:induction false} MoveWork(c: Config, tasks: seq<Task>, i: nat, t: Task)
    requires i < |tasks|
    ensures TotalWork(c, tasks[i := t]) == TotalWork(c, tasks) - Work(c, tasks[i]) + Work(c, t)
  {
    var n := |tasks| - 1;
    if i < n {
      MoveWork(c, tasks[..n], i, t);
      assert tasks[i := t][..n] == tasks[..n][i := t];
    } else {
      assert tasks[i := t][..n] == tasks[..n];
    }
  }

  lemma StepProgresses(c: Config, s: State, a: Action)
    requires Inv(c, s) && Enabled(c, s, a)
    ensures Progress(c, Do(c, s, a)) > Progress(c, s)
  {
    var s' := Do(c, s, a);
    if a.Acquire? {
      assert s'.tasks[..|s.tasks|] == s.tasks;
    } else if a.Send? || a.HandOff? || a.Return? || a.Release? || a.TaskDone? {
      MoveWork(c, s.tasks, a.i, s'.tasks[a.i]);
    }
  }

  lemma {:induction false} WorkIsBounded(c: Config, tasks: seq<Task>, items: seq<int>)
    requires |tasks| <= |items| && SentWithin(c, tasks)
    requires forall k :: 0 <= k < |tasks| ==> tasks[k].item == items[k]
    ensures TotalWork(c, tasks) <= 3 * |items| + |InOrder(c, items)|
  {
    hide SentBy;
    if items != [] {
      var n := |items| - 1;
      if |tasks| <= n {
        WorkIsBounded(c, tasks, items[..n]);
      } else {
        WorkIsBounded(c, tasks[..n], items[..n]);
        assert Work(c, tasks[n]) <= 3 + |c.fn(items[n])|;
      }
    }
  }

  lemma {:induction false} SentIsBounded(c: Config, tasks: seq<Task>, items: seq<int>)
    requires |tasks| <= |items|
    requires forall k :: 0 <= k < |tasks| ==> tasks[k].item == items[k]
    ensures |SentByAll(c, tasks)| <= |InOrder(c, items)|
  {
    if items != [] {
      var n := |items| - 1;
      if |tasks| <= n {
        SentIsBounded(c, tasks, items[..n]);
      } else {
        SentIsBounded(c, tasks[..n], items[..n]);
        assert |multiset(SentBy(c, tasks[n]))| == |SentBy(c, tasks[n])| <= |c.fn(items[n])|;
      }
    }
  }

  lemma {:induction false} StepsAreCounted(c: Config, states: seq<State>, trace: seq<Action>, i: nat)
    requires Behaves(c, states, trace) && i <= |trace|
    ensures i <= Progress(c, states[i])
  {
    if i > 0 {
      StepsAreCounted(c, states, trace, i - 1);
      AlwaysInv(c, states, trace, i - 1);
      StepProgresses(c, states[i - 1], trace[i - 1]);
    }
  }

  /** Every run is finite, of a length fixed by the input. */
  lemma RunsAreBounded(c: Config, states: seq<State>, trace: seq<Action>)
    requires Behaves(c, states, trace)
    ensures |trace| <= Bound(c)
  {
    StepsAreCounted(c, states, trace, |trace|);
    AlwaysInv(c, states, trace, |trace|);
    var s := states[|trace|];
    WorkIsBounded(c, s.tasks, c.input);
    SentIsBounded(c, s.tasks, c.input);
    assert |s.out| == |multiset(s.out)|;
  }

  lemma {:induction false} NoTokenNoTask(c: Config, states: seq<State>, trace: seq<Action>, i: nat)
    requires Behaves(c, states, trace) && i <= |trace| && Tokens(c) == 0 && c.input != []
    ensures states[i].tasks == [] && ((states[i].main.Ranging? && states[i].received == 0) || states[i].main.Acquiring?)
    ensures states[i].bucket == 0
  {
    if i > 0 { NoTokenNoTask(c, states, trace, i - 1); }
  }

  ghost predicate Halted(c: Config, s: State) {
    forall a :: !Enabled(c, s, a)
  }

  /** A run that can go no further has closed out if and only if there was a token to hand
      out or nothing to do: with concurrency 0 and an item, parDo blocks for ever. */
  lemma ClosesIffThereIsAToken(c: Config, states: seq<State>, trace: seq<Action>)
    requires Behaves(c, states, trace) && Halted(c, states[|trace|])
    ensures states[|trace|].main.Closed? <==> c.concurrency != 0 || c.input == []
  {
    if Tokens(c) > 0 || c.input == [] {
      if !states[|trace|].main.Closed? {
        var a := NeverStuck(c, states, trace, |trace|);
        assert false;
      }
    } else {
      NoTokenNoTask(c, states, trace, |trace|);
    }
  }

  /** The shortest such run: the item is received, and then nothing can move. */
  lemma NoTokenBlocks(fn: int -> seq<int>, width: nat) returns (c: Config, states: seq<State>, trace: seq<Action>)
    ensures c == Config([7], fn, 0, width) && Behaves(c, states, trace)
    ensures Halted(c, states[|trace|]) && !states[|trace|].main.Closed?
  {
    c := Config([7], fn, 0, width);
    states, trace := [START, Do(c, START, Receive)], [Receive];
    forall a ensures !Enabled(c, states[1], a) {}
  }

  // ----- one at a time -----

  /** What the tasks have sent, task after task. */
  function SentInOrder(c: Config, tasks: seq<Task>): seq<int> {
    if tasks == [] then [] else SentInOrder(c, tasks[..|tasks| - 1]) + SentBy(c, tasks[|tasks| - 1])
  }

  /** Only the newest task can hold the only token, and out is in task order. */
  ghost predicate OneAtATime(c: Config, s: State) {
    && (forall i :: 0 <= i < |s.tasks| - 1 ==> !HasToken(s.tasks[i]))
    && s.out == SentInOrder(c, s.tasks)
  }

  lemma {:induction false} SameSent(c: Config, tasks: seq<Task>, i: nat, t: Task)
    requires i < |tasks| && SentBy(c, t) == SentBy(c, tasks[i])
    ensures SentInOrder(c, tasks[i := t]) == SentInOrder(c, tasks)
  {
    var n := |tasks| - 1;
    if i < n {
      SameSent(c, tasks[..n], i, t);
      assert tasks[i := t][..n] == tasks[..n][i := t];
    } else {
      assert tasks[i := t][..n] == tasks[..n];
    }
  }

  lemma OneAtATimeKept(c: Config, s: State, a: Action)
    requires Inv(c, s) && OneAtATime(c, s) && Tokens(c) == 1 && Enabled(c, s, a)
    ensures OneAtATime(c, Do(c, s, a))
  {
    var s' := Do(c, s, a);
    match a
    case Acquire =>
      forall i | 0 <= i < |s.tasks| ensures !HasToken(s.tasks[i]) { NoneHolds(s.tasks, i); }
      assert s'.tasks[..|s.tasks|] == s.tasks;
      assert SentBy(c, s'.tasks[|s.tasks|]) == [];
    case Return(i) => SameSent(c, s.tasks, i, s'.tasks[i]);
    case Release(i) => SameSent(c, s.tasks, i, s'.tasks[i]);
    case TaskDone(i) => SameSent(c, s.tasks, i, s'.tasks[i]);
    case Send(i) => EmitInOrder(c, s, i);
    case HandOff(i) => EmitInOrder(c, s, i);
    case _ =>
  }

  lemma EmitInOrder(c: Config, s: State, i: nat)
    requires Inv(c, s) && OneAtATime(c, s) && CanSend(c, s, i)
    ensures OneAtATime(c, Emit(c, s, i))
  {
    var n, t, s' := |s.tasks| - 1, s.tasks[i], Emit(c, s, i);
    assert HasToken(t) && i == n;
    assert s'.tasks[..n] == s.tasks[..n];
    assert SentBy(c, s'.tasks[n]) == SentBy(c, t) + [c.fn(t.item)[t.stage.sent]];
  }

  lemma {:induction false} AlwaysOneAtATime(c: Config, states: seq<State>, trace: seq<Action>, i: nat)
    requires Behaves(c, states, trace) && i <= |trace| && Tokens(c) == 1
    ensures OneAtATime(c, states[i])
  {
    if i > 0 {
      AlwaysOneAtATime(c, states, trace, i - 1);
      AlwaysInv(c, states, trace, i - 1);
      OneAtATimeKept(c, states[i - 1], trace[i - 1]);
    }
  }

  lemma {:induction false} FinishedInOrder(c: Config, tasks: seq<Task>, items: seq<int>)
    requires |tasks| == |items|
    requires forall k :: 0 <= k < |tasks| ==> tasks[k] == Task(items[k], Finished)
    ensures SentInOrder(c, tasks) == InOrder(c, items)
  {
    if tasks != [] {
      var n := |tasks| - 1;
      FinishedInOrder(c, tasks[..n], items[..n]);
    }
  }

  /** The sequential combinator (pipe.go:77-84). */
  method SequentialDo(c: Config) returns (out: seq<int>)
    ensures out == InOrder(c, c.input)
  {
    out := [];
    for k := 0 to |c.input|
      invariant out == InOrder(c, c.input[..k])
    {
      assert c.input[..k + 1][..k] == c.input[..k];
      out := out + c.fn(c.input[k]);
    }
    assert c.input[..|c.input|] == c.input;
  }

  /** With concurrency 1 the parallel combinator sends exactly what the sequential one
      sends, in the same order, because the token is taken by the ranging goroutine. */
  lemma OneTokenKeepsOrder(c: Config, states: seq<State>, trace: seq<Action>, i: nat)
    requires Behaves(c, states, trace) && i <= |trace| && states[i].main.Closed? && c.concurrency == 1
    ensures states[i].out == InOrder(c, c.input)
  {
    AlwaysOneAtATime(c, states, trace, i);
    ClosedIsComplete(c, states, trace, i);
    FinishedInOrder(c, states[i].tasks, c.input);
  }
}
