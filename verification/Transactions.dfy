/** Atomic mutation of stored records, locked and optimistic (internal/db/db.go:18-188). */
module Transactions {

  /** What a Mutate callback makes of the stored value: an error, the value without
      a write, or the value to write back. */
  datatype Verdict<T> = Reject(code: int) | Keep(value: T) | Replace(value: T)

  datatype Response<T> = NotFound | AlreadyExists | Rejected(code: int) | Returned(value: T) | Stored

  datatype Op<!K, !T> =
    | Mutate(key: K, fn: T -> Verdict<T>)
    | Insert(key: K, value: T)
    | Update(key: K, value: T)
    | Upsert(key: K, value: T)

  function Answer<T>(v: Verdict<T>): Response<T> {
    match v
    case Reject(code) => Rejected(code)
    case Keep(value) => Returned(value)
    case Replace(value) => Returned(value)
  }

  /** An operation on the store, in one step. */
  function Atomic<K, T>(data: map<K, T>, op: Op<K, T>): (map<K, T>, Response<T>) {
    match op
    case Mutate(k, fn) =>
      if k !in data then (data, NotFound)
      else
        var v := fn(data[k]);
        (if v.Replace? then data[k := v.value] else data, Answer(v))
    case Insert(k, v) => if k in data then (data, AlreadyExists) else (data[k := v], Stored)
    case Update(k, v) => if k in data then (data[k := v], Stored) else (data, NotFound)
    case Upsert(k, v) => (data[k := v], Stored)
  }

  /** memoryResource: every method runs under the lock. */
  class MemoryResource<!K(==), !T> {
    var data: map<K, T>

    constructor ()
      ensures data == map[]
    {
      data := map[];
    }

    /** A read is the mutation that keeps what it finds: it never changes the store, and
        what refines the mutations refines it. */
    method GetValue(k: K) returns (r: Response<T>)
      ensures (data, r) == Atomic(data, Mutate(k, (v: T) => Keep(v)))
    {
      if k !in data {
        return NotFound;
      }
      r := Returned(data[k]);
    }

    method InsertValue(k: K, v: T) returns (r: Response<T>)
      modifies this
      ensures (data, r) == Atomic(old(data), Insert(k, v))
      ensures if k in old(data) then r == AlreadyExists && data == old(data)
              else r == Stored && data == old(data)[k := v]
    {
      if k in data {
        return AlreadyExists;
      }
      data := data[k := v];
      r := Stored;
    }

    method UpdateValue(k: K, v: T) returns (r: Response<T>)
      modifies this
      ensures (data, r) == Atomic(old(data), Update(k, v))
      ensures if k in old(data) then r == Stored && data == old(data)[k := v]
              else r == NotFound && data == old(data)
    {
      if k !in data {
        return NotFound;
      }
      data := data[k := v];
      r := Stored;
    }

    method MutateValue(k: K, fn: T -> Verdict<T>) returns (r: Response<T>)
      modifies this
      ensures (data, r) == Atomic(old(data), Mutate(k, fn))
      ensures if k !in old(data) then r == NotFound && data == old(data)
              else match fn(old(data)[k])
                   case Reject(code) => r == Rejected(code) && data == old(data)
                   case Keep(v) => r == Returned(v) && data == old(data)
                   case Replace(v) => r == Returned(v) && data == old(data)[k := v]
    {
      if k !in data {
        return NotFound;
      }
      var v := fn(data[k]);
      r := Answer(v);
      if v.Replace? {
        data := data[k := v.value];
      }
    }
  }

  // ----- the optimistic store -----

  /** Where a client is in its call: a transaction reads, runs the callback on what it
      read, and commits only if that is still what is stored; otherwise it starts over. */
  datatype Phase<T> = Idle | Called | HasRead(snapshot: T) | Finished(response: Response<T>)

  /** One call per client.  `log` (proofs only) lists the clients in the order their
      calls took effect. */
  datatype System<!K, !T> = System(data: map<K, T>, ops: map<int, Op<K, T>>, phase: map<int, Phase<T>>, log: seq<int>)

  datatype Action = Call(c: int) | Read(c: int) | Finish(c: int)

  predicate Enabled<K, T>(s: System<K, T>, a: Action) {
    && a.c in s.ops && a.c in s.phase
    && match a
       case Call(c) => s.phase[c].Idle?
       case Read(c) => s.phase[c].Called?
       case Finish(c) => s.phase[c].HasRead? && s.ops[c].Mutate?
  }

  function Do<K, T(==)>(s: System<K, T>, a: Action): System<K, T>
    requires Enabled(s, a)
  {
    match a
    case Call(c) => s.(phase := s.phase[c := Called])
    case Read(c) =>
      if s.ops[c].Mutate? && s.ops[c].key in s.data then
        var v := s.data[s.ops[c].key];
        var s' := s.(phase := s.phase[c := HasRead(v)]);
        if s.ops[c].fn(v).Replace? then s' else s'.(log := s.log + [c])
      else
        var (data, r) := Atomic(s.data, s.ops[c]);
        System(data, s.ops, s.phase[c := Finished(r)], s.log + [c])
    case Finish(c) =>
      var v, op := s.phase[c].snapshot, s.ops[c];
      var verdict := op.fn(v);
      if !verdict.Replace? then s.(phase := s.phase[c := Finished(Answer(verdict))])
      else if op.key in s.data && s.data[op.key] == v then
        System(s.data[op.key := verdict.value], s.ops, s.phase[c := Finished(Answer(verdict))], s.log + [c])
      else s.(phase := s.phase[c := Called])
  }

  ghost predicate Init<K, T>(s: System<K, T>) {
    s.phase.Keys == s.ops.Keys && s.log == [] && forall c :: c in s.phase ==> s.phase[c].Idle?
  }

  ghost predicate Steps<K, T>(states: seq<System<K, T>>, trace: seq<Action>) {
    && |states| == |trace| + 1
    && forall i :: 0 <= i < |trace| ==> Enabled(states[i], trace[i]) && states[i + 1] == Do(states[i], trace[i])
  }

  ghost predicate Behaves<K, T>(states: seq<System<K, T>>, trace: seq<Action>) {
    Steps(states, trace) && Init(states[0])
  }

  // ----- refinement -----

  /** The store after the logged calls, one at a time under the lock. */
  function Replay<K, T>(data: map<K, T>, ops: map<int, Op<K, T>>, log: seq<int>): map<K, T>
    requires forall i :: 0 <= i < |log| ==> log[i] in ops
  {
    if log == [] then data
    else Atomic(Replay(data, ops, log[..|log| - 1]), ops[log[|log| - 1]]).0
  }

  /** What the i-th logged call is answered there. */
  function ReplayAnswer<K, T>(data: map<K, T>, ops: map<int, Op<K, T>>, log: seq<int>, i: nat): Response<T>
    requires i < |log| && forall i :: 0 <= i < |log| ==> log[i] in ops
  {
    Atomic(Replay(data, ops, log[..i]), ops[log[i]]).1
  }

  /** The call's effect, if any, is in the store and its answer is fixed. */
  predicate Settled<K, T>(op: Op<K, T>, phase: Phase<T>) {
    phase.Finished? || (phase.HasRead? && op.Mutate? && !op.fn(phase.snapshot).Replace?)
  }

  function SettledAnswer<K, T>(op: Op<K, T>, phase: Phase<T>): Response<T> {
    match phase
    case Finished(r) => r
    case HasRead(v) => if op.Mutate? then Answer(op.fn(v)) else NotFound
    case _ => NotFound
  }

  /** The log lists, once each, the clients whose calls are settled. */
  ghost predicate LogsSettled<K, T>(ops: map<int, Op<K, T>>, phase: map<int, Phase<T>>, log: seq<int>) {
    && phase.Keys == ops.Keys
    && (forall i :: 0 <= i < |log| ==> log[i] in ops && Settled(ops[log[i]], phase[log[i]]))
    && (forall c :: c in ops && Settled(ops[c], phase[c]) ==> c in log)
    && (forall i, j :: 0 <= i < j < |log| ==> log[i] != log[j])
  }

  ghost predicate Explains<K, T>(init: map<K, T>, ops: map<int, Op<K, T>>, phase: map<int, Phase<T>>, log: seq<int>)
    requires LogsSettled(ops, phase, log)
  {
    forall i :: 0 <= i < |log| ==> SettledAnswer(ops[log[i]], phase[log[i]]) == ReplayAnswer(init, ops, log, i)
  }

  ghost predicate Refines<K, T>(s: System<K, T>, init: map<K, T>) {
    && LogsSettled(s.ops, s.phase, s.log)
    && s.data == Replay(init, s.ops, s.log)
    && Explains(init, s.ops, s.phase, s.log)
  }

  lemma AppendAnswers<K, T>(init: map<K, T>, ops: map<int, Op<K, T>>, log: seq<int>, c: int)
    requires c in ops && forall i :: 0 <= i < |log| ==> log[i] in ops
    ensures forall i :: 0 <= i < |log| ==> ReplayAnswer(init, ops, log + [c], i) == ReplayAnswer(init, ops, log, i)
    ensures ReplayAnswer(init, ops, log + [c], |log|) == Atomic(Replay(init, ops, log), ops[c]).1
    ensures Replay(init, ops, log + [c]) == Atomic(Replay(init, ops, log), ops[c]).0
  {
    assert (log + [c])[..|log|] == log;
    forall i | 0 <= i < |log| ensures ReplayAnswer(init, ops, log + [c], i) == ReplayAnswer(init, ops, log, i) {
      assert (log + [c])[..i] == log[..i];
    }
  }

  lemma SettlesOne<K, T>(ops: map<int, Op<K, T>>, phase: map<int, Phase<T>>, log: seq<int>, c: int, p: Phase<T>)
    requires LogsSettled(ops, phase, log) && c in ops && !Settled(ops[c], phase[c]) && Settled(ops[c], p)
    ensures LogsSettled(ops, phase[c := p], log + [c])
  {
    hide Settled;
    var log' := log + [c];
    forall i | 0 <= i < |log| ensures log'[i] == log[i] != c {}
    forall d | d in ops && Settled(ops[d], phase[c := p][d]) ensures d in log' {
      if d == c { assert log'[|log|] == c; } else { assert d in log; }
    }
  }

  /** A step in which c takes effect on the store as it is. */
  lemma TakesEffect<K, T>(s: System<K, T>, init: map<K, T>, c: int, p: Phase<T>)
    requires Refines(s, init) && c in s.ops && !Settled(s.ops[c], s.phase[c]) && Settled(s.ops[c], p)
    requires SettledAnswer(s.ops[c], p) == Atomic(s.data, s.ops[c]).1
    ensures Refines(System(Atomic(s.data, s.ops[c]).0, s.ops, s.phase[c := p], s.log + [c]), init)
  {
    hide Settled, SettledAnswer, Atomic, ReplayAnswer;
    SettlesOne(s.ops, s.phase, s.log, c, p);
    AppendAnswers(init, s.ops, s.log, c);
    var log, phase := s.log + [c], s.phase[c := p];
    forall i | 0 <= i < |log| ensures SettledAnswer(s.ops[log[i]], phase[log[i]]) == ReplayAnswer(init, s.ops, log, i) {
      if i < |s.log| { assert log[i] == s.log[i] != c; }
    }
  }

  /** A step that settles nothing. */
  lemma Unsettled<K, T>(s: System<K, T>, init: map<K, T>, c: int, p: Phase<T>)
    requires Refines(s, init) && c in s.ops
    requires Settled(s.ops[c], p) <==> Settled(s.ops[c], s.phase[c])
    requires Settled(s.ops[c], p) ==> SettledAnswer(s.ops[c], p) == SettledAnswer(s.ops[c], s.phase[c])
    ensures Refines(s.(phase := s.phase[c := p]), init)
  {
    hide Settled, SettledAnswer, Atomic, ReplayAnswer, Replay;
  }

  lemma StepRefines<K, T>(s: System<K, T>, a: Action, init: map<K, T>)
    requires Refines(s, init) && Enabled(s, a)
    ensures Refines(Do(s, a), init)
  {
    hide Refines;
    var t, c := Do(s, a), a.c;
    assert c in s.ops;
    if t.log != s.log {
      assert t.log == s.log + [c];
      TakesEffect(s, init, c, t.phase[c]);
      assert t == System(Atomic(s.data, s.ops[c]).0, s.ops, s.phase[c := t.phase[c]], s.log + [c]);
    } else {
      Unsettled(s, init, c, t.phase[c]);
      assert t == s.(phase := s.phase[c := t.phase[c]]);
    }
  }

  lemma {:induction false} AlwaysRefines<K, T>(states: seq<System<K, T>>, trace: seq<Action>, i: nat)
    requires Behaves(states, trace) && i <= |trace|
    ensures Refines(states[i], states[0].data) && states[i].ops == states[0].ops
    ensures states[0].log <= states[i].log
  {
    if i > 0 {
      AlwaysRefines(states, trace, i - 1);
      StepRefines(states[i - 1], trace[i - 1], states[0].data);
    }
  }

  /** Linearizability.  Every history of the optimistic store is one of the locked
      store: the logged order explains the data and every answer given, and a call
      that had not begun when another finished comes after it. */
  lemma OptimisticRefinesLocked<K, T>(states: seq<System<K, T>>, trace: seq<Action>, i: nat)
    requires Behaves(states, trace) && i <= |trace|
    ensures var s := states[i];
            && (forall k :: 0 <= k < |s.log| ==> s.log[k] in s.ops)
            && s.data == Replay(states[0].data, s.ops, s.log)
            && (forall c :: c in s.phase && s.phase[c].Finished? ==>
                  exists k :: 0 <= k < |s.log| && s.log[k] == c
                              && s.phase[c].response == ReplayAnswer(states[0].data, s.ops, s.log, k))
            && (forall c :: c in s.phase && s.phase[c].Idle? ==> c !in s.log)
  {
    AlwaysRefines(states, trace, i);
    var s := states[i];
    forall c | c in s.phase && s.phase[c].Finished?
      ensures exists k :: 0 <= k < |s.log| && s.log[k] == c
                          && s.phase[c].response == ReplayAnswer(states[0].data, s.ops, s.log, k)
    {
      assert Settled(s.ops[c], s.phase[c]);
      var k :| 0 <= k < |s.log| && s.log[k] == c;
      assert SettledAnswer(s.ops[s.log[k]], s.phase[s.log[k]]) == s.phase[c].response;
    }
    forall c | c in s.phase && s.phase[c].Idle? ensures c !in s.log {
      assert !Settled(s.ops[c], s.phase[c]);
    }
  }

  // ----- inserts -----

  lemma {:induction false} KeysStay<K, T>(data: map<K, T>, ops: map<int, Op<K, T>>, log: seq<int>, i: nat, j: nat,
                                           key: K)
    requires i <= j <= |log| && forall k :: 0 <= k < |log| ==> log[k] in ops
    requires key in Replay(data, ops, log[..i])
    ensures key in Replay(data, ops, log[..j])
    decreases j
  {
    if i < j {
      KeysStay(data, ops, log, i, j - 1, key);
      assert log[..j][..j - 1] == log[..j - 1];
    }
  }

  /** Of any number of inserts of one key, in the order that explains a history: one is stored
      exactly when it finds the key absent, and every later one is told that it exists and
      changes nothing. */
  lemma InsertedOnce<K, T>(data: map<K, T>, ops: map<int, Op<K, T>>, log: seq<int>, k: nat, l: nat)
    requires k < l < |log| && forall m :: 0 <= m < |log| ==> log[m] in ops
    requires ops[log[k]].Insert? && ops[log[l]].Insert? && ops[log[k]].key == ops[log[l]].key
    ensures ReplayAnswer(data, ops, log, k) == Stored <==> ops[log[k]].key !in Replay(data, ops, log[..k])
    ensures ReplayAnswer(data, ops, log, l) == AlreadyExists
    ensures Replay(data, ops, log[..l + 1]) == Replay(data, ops, log[..l])
  {
    assert log[..k + 1][..k] == log[..k] && log[..l + 1][..l] == log[..l];
    KeysStay(data, ops, log, k + 1, l, ops[log[k]].key);
  }

  /** The logged order never changes, it only grows. */
  lemma {:induction false} LogGrows<K, T>(states: seq<System<K, T>>, trace: seq<Action>, i: nat, j: nat)
    requires Behaves(states, trace) && i <= j <= |trace|
    ensures states[i].log <= states[j].log
    decreases j
  {
    if i < j {
      LogGrows(states, trace, i, j - 1);
    }
  }
}
