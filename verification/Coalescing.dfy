/** The coalescing cache under every interleaving (internal/cache/cache.go:25-73).
    Each step is one atomic operation on the shared map or on an entry's run-once cell. */
module Coalescing {

  type Key = int
  type Id = int
  type Thread = int

  datatype Outcome = Value(v: int) | Error(code: int)

  /** sync.OnceValues: not yet called, being run by one caller, or done for good. */
  datatype Cell = NotRun | Running(runner: Thread) | Done(outcome: Outcome)

  /** An entry is one allocation of fn; `runs` (proofs only) counts the calls of its fetch. */
  datatype Entry = Entry(key: Key, cell: Cell, runs: nat)

  datatype Phase =
    | Idle
    | Missed                                          // Get found nothing
    | Has(key: Key, id: Id)                           // obtained an entry, about to call its Func
    | Fetching(key: Key, id: Id)                      // the caller that runs the fetch
    | Got(key: Key, id: Id, outcome: Outcome)         // Func returned, in valueOrClear
    | Returned(key: Key, id: Id, outcome: Outcome)

  datatype State = State(data: map<Key, Id>, entries: map<Id, Entry>, phase: map<Thread, Phase>)

  datatype Action =
    | Load(t: Thread, key: Key)                       // Get
    | LoadOrStore(t: Thread, key: Key, id: Id)    // GetOrSet
    | Store(t: Thread, key: Key, id: Id)          // Set
    | Delete(t: Thread, key: Key)                     // Del
    | StartFetch(t: Thread)
    | EndFetch(t: Thread, outcome: Outcome)
    | Join(t: Thread)                                 // Func returns what the cell holds
    | Settle(t: Thread)                               // valueOrClear's CompareAndDelete and return
    | Rest(t: Thread)                                 // the caller goes on to its next call

  predicate Enabled(s: State, a: Action) {
    && a.t in s.phase
    && var p := s.phase[a.t];
       match a
       case Load(_, _) => p.Idle?
       case LoadOrStore(_, _, n) => p.Idle? && n !in s.entries
       case Store(_, _, n) => p.Idle? && n !in s.entries
       case Delete(_, _) => p.Idle?
       case StartFetch(_) => p.Has? && p.id in s.entries && s.entries[p.id].cell.NotRun?
       case EndFetch(_, _) => p.Fetching? && p.id in s.entries
       case Join(_) => p.Has? && p.id in s.entries && s.entries[p.id].cell.Done?
       case Settle(_) => p.Got?
       case Rest(_) => p.Returned? || p.Missed?
  }

  /** sync.Map.CompareAndDelete. */
  function CompareAndDelete(data: map<Key, Id>, key: Key, id: Id): map<Key, Id> {
    if key in data && data[key] == id then data - {key} else data
  }

  function Do(s: State, a: Action): State
    requires Enabled(s, a)
  {
    var t, p := a.t, s.phase[a.t];
    match a
    case Load(_, k) =>
      s.(phase := s.phase[t := if k in s.data then Has(k, s.data[k]) else Missed])
    case LoadOrStore(_, k, n) =>
      if k in s.data then s.(phase := s.phase[t := Has(k, s.data[k])])
      else State(s.data[k := n], s.entries[n := Entry(k, NotRun, 0)], s.phase[t := Has(k, n)])
    case Store(_, k, n) =>
      State(s.data[k := n], s.entries[n := Entry(k, NotRun, 0)], s.phase[t := Has(k, n)])
    case Delete(_, k) => s.(data := s.data - {k})
    case StartFetch(_) =>
      var e := s.entries[p.id];
      s.(entries := s.entries[p.id := Entry(e.key, Running(t), e.runs + 1)],
         phase := s.phase[t := Fetching(p.key, p.id)])
    case EndFetch(_, o) =>
      var e := s.entries[p.id];
      s.(entries := s.entries[p.id := e.(cell := Done(o))], phase := s.phase[t := Got(p.key, p.id, o)])
    case Join(_) =>
      s.(phase := s.phase[t := Got(p.key, p.id, s.entries[p.id].cell.outcome)])
    case Settle(_) =>
      s.(data := if p.outcome.Error? then CompareAndDelete(s.data, p.key, p.id) else s.data,
         phase := s.phase[t := Returned(p.key, p.id, p.outcome)])
    case Rest(_) => s.(phase := s.phase[t := Idle])
  }

  ghost predicate Init(s: State) {
    s.data == map[] && s.entries == map[] && forall t :: t in s.phase ==> s.phase[t].Idle?
  }

  ghost predicate Behaves(states: seq<State>, trace: seq<Action>) {
    && |states| == |trace| + 1
    && Init(states[0])
    && forall i :: 0 <= i < |trace| ==> Enabled(states[i], trace[i]) && states[i + 1] == Do(states[i], trace[i])
  }

  // ----- invariant -----

  /** The thread's phase agrees with the entry it refers to. */
  ghost predicate PhaseOk(entries: map<Id, Entry>, t: Thread, p: Phase) {
    && (p.Has? || p.Fetching? || p.Got? || p.Returned? ==> p.id in entries && entries[p.id].key == p.key)
    && (p.Fetching? ==> entries[p.id].cell == Running(t))
    && (p.Got? || p.Returned? ==> entries[p.id].cell == Done(p.outcome))
  }

  /** A fetch has been started at most once, and one under way has the thread running it. */
  ghost predicate EntryOk(phase: map<Thread, Phase>, e: Entry, id: Id) {
    && e.runs == (if e.cell.NotRun? then 0 else 1)
    && (e.cell.Running? ==> e.cell.runner in phase && phase[e.cell.runner] == Fetching(e.key, id))
  }

  /** A mapped entry that is not a success has a thread that will run it or clear it. */
  ghost predicate Attended(entries: map<Id, Entry>, phase: map<Thread, Phase>, k: Key, id: Id) {
    && id in entries && entries[id].key == k
    && match entries[id].cell
       case NotRun => exists t :: t in phase && phase[t] == Has(k, id)
       case Running(t) => true
       case Done(o) => o.Error? ==> exists t :: t in phase && phase[t] == Got(k, id, o)
  }

  ghost predicate Inv(s: State) {
    && (forall t :: t in s.phase ==> PhaseOk(s.entries, t, s.phase[t]))
    && (forall id :: id in s.entries ==> EntryOk(s.phase, s.entries[id], id))
    && (forall k :: k in s.data ==> Attended(s.entries, s.phase, k, s.data[k]))
  }

  /** Steps on the map that leave every entry as it is. */
  lemma ObtainKeeps(s: State, t: Thread, k: Key, n: Id, isNew: bool)
    requires Inv(s) && t in s.phase && s.phase[t].Idle?
    requires if isNew then n !in s.entries else k in s.data && s.data[k] == n
    ensures Inv(State(s.data[k := n], if isNew then s.entries[n := Entry(k, NotRun, 0)]
                                      else s.entries, s.phase[t := Has(k, n)]))
  {
    var entries := if isNew then s.entries[n := Entry(k, NotRun, 0)] else s.entries;
    var phase := s.phase[t := Has(k, n)];
    assert phase[t] == Has(k, n);
    forall u | u in phase ensures PhaseOk(entries, u, phase[u]) {
      if u != t { assert PhaseOk(s.entries, u, s.phase[u]); }
    }
    forall id | id in entries ensures EntryOk(phase, entries[id], id) {
      if id in s.entries { assert EntryOk(s.phase, s.entries[id], id); }
    }
    var data := s.data[k := n];
    forall j | j in data ensures Attended(entries, phase, j, data[j]) {
      if j != k || !isNew { StillAttended(s, entries, phase, t, j); }
    }
  }

  /** An entry stays attended while it is unchanged and the thread that moves was not
      attending it, or still is. */
  lemma StillAttended(s: State, entries: map<Id, Entry>, phase: map<Thread, Phase>, t: Thread, j: Key)
    requires j in s.data && Attended(s.entries, s.phase, j, s.data[j])
    requires s.data[j] in entries && entries[s.data[j]] == s.entries[s.data[j]]
    requires t in s.phase && t in phase && phase == s.phase[t := phase[t]]
    requires s.phase[t] == Has(j, s.data[j]) ==> !s.entries[s.data[j]].cell.NotRun?
    requires !s.phase[t].Got? || s.phase[t].id != s.data[j] || s.phase[t].outcome.Value?
    ensures Attended(entries, phase, j, s.data[j])
  {
    var id := s.data[j];
    match entries[id].cell
    case NotRun =>
      var u :| u in s.phase && s.phase[u] == Has(j, id);
      assert phase[u] == Has(j, id);
    case Running(u) =>
    case Done(o) =>
      if o.Error? {
        var u :| u in s.phase && s.phase[u] == Got(j, id, o);
        assert phase[u] == Got(j, id, o);
      }
  }

  lemma FetchKeeps(s: State, a: Action)
    requires Inv(s) && Enabled(s, a) && (a.StartFetch? || a.EndFetch?)
    ensures Inv(Do(s, a))
  {
    var t, p, s' := a.t, s.phase[a.t], Do(s, a);
    assert PhaseOk(s.entries, t, p);
    assert EntryOk(s.phase, s.entries[p.id], p.id);
    forall id | id in s'.entries ensures EntryOk(s'.phase, s'.entries[id], id) {
      if id != p.id { assert EntryOk(s.phase, s.entries[id], id); }
    }
    forall u | u in s'.phase ensures PhaseOk(s'.entries, u, s'.phase[u]) {
      if u != t { assert PhaseOk(s.entries, u, s.phase[u]); }
    }
    forall j | j in s.data ensures Attended(s'.entries, s'.phase, j, s.data[j]) {
      if s.data[j] == p.id {
        assert Attended(s.entries, s.phase, j, p.id);
        assert s'.phase[t] == s'.phase[t];
      } else {
        StillAttended(s, s'.entries, s'.phase, t, j);
      }
    }
  }

  lemma JoinKeeps(s: State, t: Thread)
    requires Inv(s) && Enabled(s, Join(t))
    ensures Inv(Do(s, Join(t)))
  {
    var p, s' := s.phase[t], Do(s, Join(t));
    forall u | u in s'.phase ensures PhaseOk(s'.entries, u, s'.phase[u]) {
      assert PhaseOk(s.entries, u, s.phase[u]);
    }
    forall id | id in s.entries ensures EntryOk(s'.phase, s.entries[id], id) {
      assert EntryOk(s.phase, s.entries[id], id);
    }
    forall j | j in s.data ensures Attended(s'.entries, s'.phase, j, s.data[j]) {
      StillAttended(s, s'.entries, s'.phase, t, j);
    }
  }

  lemma SettleKeeps(s: State, t: Thread)
    requires Inv(s) && Enabled(s, Settle(t))
    ensures Inv(Do(s, Settle(t)))
  {
    var p, s' := s.phase[t], Do(s, Settle(t));
    assert PhaseOk(s.entries, t, p);
    forall u | u in s'.phase ensures PhaseOk(s'.entries, u, s'.phase[u]) {
      if u != t { assert PhaseOk(s.entries, u, s.phase[u]); }
    }
    forall id | id in s.entries ensures EntryOk(s'.phase, s.entries[id], id) {
      assert EntryOk(s.phase, s.entries[id], id);
    }
    forall j | j in s'.data ensures Attended(s'.entries, s'.phase, j, s'.data[j]) {
      assert Attended(s.entries, s.phase, j, s.data[j]);
      StillAttended(s, s'.entries, s'.phase, t, j);
    }
  }

  lemma StepKeeps(s: State, a: Action)
    requires Inv(s) && Enabled(s, a)
    ensures Inv(Do(s, a))
  {
    match a
    case LoadOrStore(t, k, n) =>
      ObtainKeeps(s, t, k, if k in s.data then s.data[k] else n, k !in s.data);
      assert k in s.data ==> s.data[k := s.data[k]] == s.data;
    case Load(t, k) =>
      if k in s.data {
        ObtainKeeps(s, t, k, s.data[k], false);
        assert s.data[k := s.data[k]] == s.data;
      } else {
        RestKeeps(s, t, Missed);
      }
    case Store(t, k, n) => ObtainKeeps(s, t, k, n, true);
    case Delete(t, k) =>
    case StartFetch(t) => FetchKeeps(s, a);
    case EndFetch(t, o) => FetchKeeps(s, a);
    case Join(t) => JoinKeeps(s, t);
    case Settle(t) => SettleKeeps(s, t);
    case Rest(t) => RestKeeps(s, t, Idle);
  }

  lemma RestKeeps(s: State, t: Thread, p: Phase)
    requires Inv(s) && t in s.phase && (s.phase[t].Idle? || s.phase[t].Missed? || s.phase[t].Returned?)
    requires p.Idle? || p.Missed?
    ensures Inv(s.(phase := s.phase[t := p]))
  {
    var phase := s.phase[t := p];
    forall id | id in s.entries ensures EntryOk(phase, s.entries[id], id) {
      assert EntryOk(s.phase, s.entries[id], id);
    }
    forall j | j in s.data ensures Attended(s.entries, phase, j, s.data[j]) {
      StillAttended(s, s.entries, phase, t, j);
    }
  }

  lemma {:induction false} AlwaysInv(states: seq<State>, trace: seq<Action>, i: nat)
    requires Behaves(states, trace) && i <= |trace|
    ensures Inv(states[i])
  {
    if i > 0 {
      AlwaysInv(states, trace, i - 1);
      StepKeeps(states[i - 1], trace[i - 1]);
    }
  }

  // ----- what callers see -----

  /** A cell, once done, never changes. */
  lemma DoneIsFinal(s: State, a: Action, id: Id)
    requires Inv(s) && Enabled(s, a) && id in s.entries && s.entries[id].cell.Done?
    ensures id in Do(s, a).entries && Do(s, a).entries[id] == s.entries[id]
  {
    assert PhaseOk(s.entries, a.t, s.phase[a.t]);
  }

  lemma {:induction false} DoneForever(states: seq<State>, trace: seq<Action>, i: nat, j: nat, id: Id)
    requires Behaves(states, trace) && i <= j <= |trace| && id in states[i].entries && states[i].entries[id].cell.Done?
    ensures id in states[j].entries && states[j].entries[id] == states[i].entries[id]
    decreases j
  {
    if i < j {
      DoneForever(states, trace, i, j - 1, id);
      AlwaysInv(states, trace, j - 1);
      DoneIsFinal(states[j - 1], trace[j - 1], id);
    }
  }

  /** A call that returns does so with the outcome of its entry's one fetch. */
  lemma ReturnsTheFetch(states: seq<State>, trace: seq<Action>, i: nat, t: Thread)
    requires Behaves(states, trace) && i <= |trace| && t in states[i].phase && states[i].phase[t].Returned?
    ensures var p, entries := states[i].phase[t], states[i].entries;
            p.id in entries && entries[p.id].cell == Done(p.outcome) && entries[p.id].runs == 1
  {
    AlwaysInv(states, trace, i);
    var s := states[i];
    assert PhaseOk(s.entries, t, s.phase[t]);
    assert EntryOk(s.phase, s.entries[s.phase[t].id], s.phase[t].id);
  }

  /** Coalescing: an entry's fetch runs at most once, and any two calls that return from
      one entry, however far apart in the run, return the same outcome. */
  lemma OneFetchOneAnswer(states: seq<State>, trace: seq<Action>, i: nat, j: nat, t: Thread, u: Thread)
    requires Behaves(states, trace) && i <= j <= |trace|
    ensures forall id :: id in states[j].entries ==> states[j].entries[id].runs <= 1
    ensures t in states[i].phase && states[i].phase[t].Returned?
            && u in states[j].phase && states[j].phase[u].Returned? && states[i].phase[t].id == states[j].phase[u].id
            ==> states[i].phase[t].outcome == states[j].phase[u].outcome
  {
    AlwaysInv(states, trace, j);
    forall id | id in states[j].entries ensures states[j].entries[id].runs <= 1 {
      assert EntryOk(states[j].phase, states[j].entries[id], id);
    }
    hide Inv, Behaves;
    if t in states[i].phase && states[i].phase[t].Returned? {
      ReturnsTheFetch(states, trace, i, t);
      DoneForever(states, trace, i, j, states[i].phase[t].id);
    }
    if u in states[j].phase && states[j].phase[u].Returned? {
      ReturnsTheFetch(states, trace, j, u);
    }
  }

  /** In every run: only Del and Set take a successful or unfinished entry out of the map,
      and a call clears exactly the entry it obtained and saw fail, never another one that
      has been stored under the key since. */
  lemma ClearingIsExact(states: seq<State>, trace: seq<Action>, i: nat, k: Key)
    requires Behaves(states, trace) && i < |trace| && k in states[i].data && !trace[i].Delete? && !trace[i].Store?
    ensures var s, a, after := states[i], trace[i], states[i + 1].data;
            && (k in after ==> after[k] == s.data[k])
            && (k !in after <==> a.Settle? && s.phase[a.t].id == s.data[k] && s.phase[a.t].outcome.Error?)
            && (k !in after ==> s.data[k] in s.entries && s.entries[s.data[k]].cell == Done(s.phase[a.t].outcome))
  {
    AlwaysInv(states, trace, i);
    var s, a := states[i], trace[i];
    assert PhaseOk(s.entries, a.t, s.phase[a.t]);
    assert Attended(s.entries, s.phase, k, s.data[k]);
  }

  /** With no call in flight every mapped entry is a finished success: failures are
      never left behind to be served. */
  lemma QuietMapIsAllSuccesses(states: seq<State>, trace: seq<Action>, i: nat, k: Key)
    requires Behaves(states, trace) && i <= |trace| && k in states[i].data
    requires forall t :: t in states[i].phase ==> states[i].phase[t].Idle? || states[i].phase[t].Missed?
                                                  || states[i].phase[t].Returned?
    ensures states[i].data[k] in states[i].entries && states[i].entries[states[i].data[k]].cell.Done?
    ensures states[i].entries[states[i].data[k]].cell.outcome.Value?
  {
    AlwaysInv(states, trace, i);
    assert Attended(states[i].entries, states[i].phase, k, states[i].data[k]);
  }

  /** The thread that can move on t's behalf: t itself, or the one running the fetch t waits for. */
  function Mover(s: State, t: Thread): Thread
    requires t in s.phase
  {
    var p := s.phase[t];
    if p.Has? && p.id in s.entries && s.entries[p.id].cell.Running? then s.entries[p.id].cell.runner else t
  }

  /** No caller is stuck: while a call is in flight, it or the fetch it waits for can take a step. */
  lemma SomeoneCanMove(states: seq<State>, trace: seq<Action>, i: nat, t: Thread) returns (a: Action)
    requires Behaves(states, trace) && i <= |trace|
    requires t in states[i].phase && (states[i].phase[t].Has? || states[i].phase[t].Fetching?
                                      || states[i].phase[t].Got?)
    ensures Enabled(states[i], a) && a.t == Mover(states[i], t)
  {
    AlwaysInv(states, trace, i);
    var s := states[i];
    var p, m := s.phase[t], Mover(s, t);
    assert PhaseOk(s.entries, t, p) && EntryOk(s.phase, s.entries[p.id], p.id);
    if m != t {
      a := EndFetch(m, Error(0));
    } else if p.Has? {
      a := if s.entries[p.id].cell.NotRun? then StartFetch(t) else Join(t);
    } else if p.Fetching? {
      a := EndFetch(t, Error(0));
    } else {
      a := Settle(t);
    }
  }
}
