/** Reserving iterations and completing a session, by any number of concurrent
    callers (internal/api/agentapiservice/iteration.go:38-72, complete.go:26-50), while its
    set-up ends with an update of the whole record (internal/api/apiservice/agent.go:112-206). */
module Sessions {
  import opened Transactions

  datatype Status = Initializing | Running | Completed

  /** The session fields these calls read or write. */
  datatype Session = Session(
    status: Status, iterationCount: int, maxIterations: int, stopReason: string,
    successIteration: string, summary: string, updated: int)

  const NOT_RUNNING: int := 1
  const LIMIT: int := 2

  /** reserveIteration's callback. */
  function Reserve(now: int): Session -> Verdict<Session> {
    (s: Session) =>
      if s.status != Running then Reject(NOT_RUNNING)
      else if s.iterationCount >= s.maxIterations then Reject(LIMIT)
      else Replace(s.(iterationCount := s.iterationCount + 1, updated := now))
  }

  datatype CompleteRequest = CompleteRequest(stopReason: string, successIteration: string, summary: string, now: int)

  /** AgentComplete's callback. */
  function Complete(req: CompleteRequest): Session -> Verdict<Session> {
    (s: Session) =>
      if s.status == Completed then Keep(s)
      else Replace(s.(
        status := Completed, stopReason := req.stopReason, updated := req.now,
        successIteration := if req.successIteration != "" then req.successIteration else s.successIteration,
        summary := if req.summary != "" then req.summary else s.summary))
  }

  // ----- calls on one session -----

  /** The set-up's update writes back the record it holds: running once the job is
      launched, or completed with an error when no scratch could be had. */
  datatype SessionCall = ReserveCall(now: int) | CompleteCall(req: CompleteRequest) | SetupCall(record: Session)

  type Id = string

  function OpOf(id: Id, call: SessionCall): Op<Id, Session> {
    match call
    case ReserveCall(now) => Mutate(id, Reserve(now))
    case CompleteCall(req) => Mutate(id, Complete(req))
    case SetupCall(record) => Update(id, record)
  }

  /** The system's clients make these calls, all on this session. */
  ghost predicate Calls(ops: map<int, Op<Id, Session>>, calls: map<int, SessionCall>, id: Id) {
    ops.Keys == calls.Keys && forall c :: c in calls ==> ops[c] == OpOf(id, calls[c])
  }

  /** The session after one call takes effect. */
  function After(s: Session, call: SessionCall): Session {
    match call
    case ReserveCall(now) => var v := Reserve(now)(s); if v.Replace? then v.value else s
    case CompleteCall(req) => var v := Complete(req)(s); if v.Replace? then v.value else s
    case SetupCall(record) => record
  }

  function AfterAll(s: Session, calls: seq<SessionCall>): Session {
    if calls == [] then s else After(AfterAll(s, calls[..|calls| - 1]), calls[|calls| - 1])
  }

  /** The i-th call of the sequence is a reservation that is granted. */
  predicate Granted(s: Session, calls: seq<SessionCall>, i: nat)
    requires i < |calls|
  {
    calls[i].ReserveCall? && Reserve(calls[i].now)(AfterAll(s, calls[..i])).Replace?
  }

  /** The number it is granted. */
  function Number(s: Session, calls: seq<SessionCall>, i: nat): int
    requires i < |calls| && Granted(s, calls, i)
  {
    Reserve(calls[i].now)(AfterAll(s, calls[..i])).value.iterationCount
  }

  /** The set-up of a session writes back the session it inserted: initializing, with the
      same count and limit. */
  predicate FromInsertion(s: Session, record: Session) {
    s.status == Initializing && record.iterationCount == s.iterationCount && record.maxIterations == s.maxIterations
  }

  /** At most one of the calls is the set-up's, and it is this session's. */
  ghost predicate SetUpOnce(s: Session, calls: seq<SessionCall>) {
    && (forall i :: 0 <= i < |calls| && calls[i].SetupCall? ==> FromInsertion(s, calls[i].record))
    && (forall i, j :: 0 <= i < j < |calls| ==> !(calls[i].SetupCall? && calls[j].SetupCall?))
  }

  /** Until it is set up, an inserted session grants nothing. */
  lemma {:induction false} NothingBeforeSetup(s: Session, calls: seq<SessionCall>, i: nat)
    requires i <= |calls| && s.status == Initializing && forall k :: 0 <= k < i ==> !calls[k].SetupCall?
    ensures AfterAll(s, calls[..i]).status != Running && AfterAll(s, calls[..i]).iterationCount == s.iterationCount
  {
    if i > 0 {
      assert calls[..i][..i - 1] == calls[..i - 1];
      NothingBeforeSetup(s, calls, i - 1);
    }
  }

  lemma NextCount(s: Session, calls: seq<SessionCall>, i: nat)
    requires i < |calls| && SetUpOnce(s, calls)
    ensures AfterAll(s, calls[..i]).iterationCount <= AfterAll(s, calls[..i + 1]).iterationCount
    ensures AfterAll(s, calls[..i]).maxIterations == s.maxIterations ==>
            AfterAll(s, calls[..i + 1]).maxIterations == s.maxIterations
  {
    assert calls[..i + 1][..i] == calls[..i];
    if calls[i].SetupCall? {
      NothingBeforeSetup(s, calls, i);
    }
  }

  lemma {:induction false} CountOnlyGrows(s: Session, calls: seq<SessionCall>, i: nat, j: nat)
    requires i <= j <= |calls| && SetUpOnce(s, calls)
    ensures AfterAll(s, calls[..i]).iterationCount <= AfterAll(s, calls[..j]).iterationCount
    ensures AfterAll(s, calls[..j]).maxIterations == s.maxIterations
    decreases j
  {
    hide SetUpOnce;
    if j > 0 {
      CountOnlyGrows(s, calls, if i < j then i else j - 1, j - 1);
      NextCount(s, calls, j - 1);
      hide AfterAll;
    }
  }

  /** A grant moves the count to the number it grants. */
  lemma GrantCounts(s: Session, calls: seq<SessionCall>, i: nat)
    requires i < |calls| && Granted(s, calls, i) && SetUpOnce(s, calls)
    ensures Number(s, calls, i) == AfterAll(s, calls[..i + 1]).iterationCount ==
            AfterAll(s, calls[..i]).iterationCount + 1
    ensures Number(s, calls, i) <= s.maxIterations
  {
    assert calls[..i + 1][..i] == calls[..i];
    CountOnlyGrows(s, calls, i, i);
  }

  /** Over any order of calls the numbers granted are first+1 .. last, each once. */
  lemma {:induction false} EachNumberGrantedOnce(s: Session, calls: seq<SessionCall>, n: int) returns (i: nat)
    requires SetUpOnce(s, calls) && s.iterationCount < n <= AfterAll(s, calls).iterationCount
    ensures i < |calls| && Granted(s, calls, i) && Number(s, calls, i) == n
    decreases |calls|
  {
    var k := |calls| - 1;
    var init := calls[..k];
    if n <= AfterAll(s, init).iterationCount {
      i := EachNumberGrantedOnce(s, init, n);
      assert calls[..i] == init[..i];
    } else {
      i := k;
      assert calls[..i] == init;
    }
  }

  lemma GrantWithin(s: Session, calls: seq<SessionCall>, i: nat, j: nat)
    requires i < j <= |calls| && Granted(s, calls, i) && SetUpOnce(s, calls)
    ensures s.iterationCount < Number(s, calls, i) <= AfterAll(s, calls[..j]).iterationCount
  {
    hide AfterAll;
    GrantCounts(s, calls, i);
    assert calls[..0] == [] && AfterAll(s, []) == s by { NoCalls(s); }
    CountOnlyGrows(s, calls, 0, i);
    CountOnlyGrows(s, calls, i + 1, j);
  }

  lemma NoCalls(s: Session)
    ensures AfterAll(s, []) == s
  {}

  lemma GrantsIncrease(s: Session, calls: seq<SessionCall>, i: nat, j: nat)
    requires i < j < |calls| && Granted(s, calls, i) && Granted(s, calls, j) && SetUpOnce(s, calls)
    ensures Number(s, calls, i) < Number(s, calls, j)
  {
    hide AfterAll;
    GrantWithin(s, calls, i, j);
    GrantCounts(s, calls, j);
  }

  /** Anything but a set-up leaves a completed session's outcome alone, and is granted nothing. */
  lemma {:induction false} CompletedStays(s: Session, calls: seq<SessionCall>, i: nat, j: nat)
    requires i <= j <= |calls| && AfterAll(s, calls[..i]).status == Completed
    requires forall k :: i <= k < j ==> !calls[k].SetupCall?
    ensures AfterAll(s, calls[..j]).(updated := 0) == AfterAll(s, calls[..i]).(updated := 0)
    ensures j < |calls| ==> !Granted(s, calls, j)
    decreases j
  {
    if i < j {
      assert calls[..j][..j - 1] == calls[..j - 1];
      CompletedStays(s, calls, i, j - 1);
    }
  }

  /** Completion absorbs: from the first completion on, while no set-up update takes
      effect, nothing is granted and the session keeps the stop reason of that completion, its
      summary and success where it gave one, and everything else it had before. */
  lemma CompletionAbsorbs(s: Session, calls: seq<SessionCall>, i: nat, j: nat)
    requires i < j <= |calls| && calls[i].CompleteCall?
    requires AfterAll(s, calls[..i]).status != Completed
    requires forall k :: i < k < j ==> !calls[k].SetupCall?
    ensures var first, last := AfterAll(s, calls[..i + 1]), AfterAll(s, calls[..j]);
            && last.status == Completed && last.stopReason == calls[i].req.stopReason
            && last.(updated := 0) == first.(updated := 0)
    ensures var req, before, last := calls[i].req, AfterAll(s, calls[..i]), AfterAll(s, calls[..j]);
            && last.summary == (if req.summary != "" then req.summary else before.summary)
            && last.successIteration ==
               (if req.successIteration != "" then req.successIteration else before.successIteration)
            && last.iterationCount == before.iterationCount && last.maxIterations == before.maxIterations
    ensures j < |calls| ==> !Granted(s, calls, j)
  {
    assert calls[..i + 1][..i] == calls[..i];
    CompletedStays(s, calls, i + 1, j);
  }

  /** The call takes a completed session back. */
  predicate Reopens(call: SessionCall) {
    call.SetupCall? && call.record.status != Completed
  }

  /** Some call from the i-th to before the j-th does. */
  ghost predicate Reopened(calls: seq<SessionCall>, i: nat, j: nat)
    requires j <= |calls|
  {
    exists k :: i <= k < j && Reopens(calls[k])
  }

  /** A completed session is completed after each later call exactly when none reopens it. */
  lemma {:induction false} CompletedUntilReopened(s: Session, calls: seq<SessionCall>, i: nat, j: nat)
    requires i <= j <= |calls| && AfterAll(s, calls[..i]).status == Completed
    ensures (forall k :: i <= k <= j ==> AfterAll(s, calls[..k]).status == Completed) <==> !Reopened(calls, i, j)
    decreases j
  {
    if i < j {
      CompletedUntilReopened(s, calls, i, j - 1);
      StatusAfter(s, calls, j - 1);
      hide AfterAll, Reopens;
    }
  }

  lemma StatusAfter(s: Session, calls: seq<SessionCall>, i: nat)
    requires i < |calls|
    ensures AfterAll(s, calls[..i]).status == Completed ==>
              (AfterAll(s, calls[..i + 1]).status == Completed <==> !Reopens(calls[i]))
    ensures AfterAll(s, calls[..i]).status != Completed && Reopens(calls[i]) ==>
            AfterAll(s, calls[..i + 1]).status != Completed
  {
    assert calls[..i + 1][..i] == calls[..i];
  }

  // ----- any interleaving of optimistic transactions -----

  function CallsOf(calls: map<int, SessionCall>, log: seq<int>): seq<SessionCall>
    requires forall i :: 0 <= i < |log| ==> log[i] in calls
  {
    seq(|log|, i requires 0 <= i < |log| => calls[log[i]])
  }

  lemma AtomicIsAfter(data: map<Id, Session>, id: Id, call: SessionCall)
    requires id in data
    ensures Atomic(data, OpOf(id, call)).0 == data[id := After(data[id], call)]
  {
    assert data[id := data[id]] == data;
  }

  lemma {:induction false} ReplayIsAfterAll(
    data: map<Id, Session>, ops: map<int, Op<Id, Session>>, calls: map<int, SessionCall>, id: Id, log: seq<int>)
    requires Calls(ops, calls, id) && id in data && forall i :: 0 <= i < |log| ==> log[i] in calls
    ensures Replay(data, ops, log) == data[id := AfterAll(data[id], CallsOf(calls, log))]
    decreases |log|
  {
    if log != [] {
      var init, last := log[..|log| - 1], log[|log| - 1];
      ReplayIsAfterAll(data, ops, calls, id, init);
      assert CallsOf(calls, log)[..|log| - 1] == CallsOf(calls, init);
      AtomicIsAfter(Replay(data, ops, init), id, calls[last]);
    } else {
      assert data[id := data[id]] == data;
    }
  }

  /** Client c's reservation went through and was told number n. */
  ghost predicate Told(phase: map<int, Phase<Session>>, calls: map<int, SessionCall>, c: int, n: int) {
    && c in phase && c in calls && calls[c].ReserveCall?
    && phase[c].Finished? && phase[c].response.Returned? && phase[c].response.value.iterationCount == n
  }

  ghost predicate SomeoneTold(phase: map<int, Phase<Session>>, calls: map<int, SessionCall>, n: int) {
    exists c :: Told(phase, calls, c, n)
  }

  ghost predicate AtMostOneTold(phase: map<int, Phase<Session>>, calls: map<int, SessionCall>, n: int) {
    forall c, d :: Told(phase, calls, c, n) && Told(phase, calls, d, n) ==> c == d
  }

  /** A settled reservation was told n exactly when it is granted n at its place in the log. */
  lemma ToldIffGranted(data: map<Id, Session>, ops: map<int, Op<Id, Session>>, phase: map<int, Phase<Session>>,
                       log: seq<int>, calls: map<int, SessionCall>, id: Id, k: nat, n: int)
    requires LogsSettled(ops, phase, log) && Explains(data, ops, phase, log)
    requires Calls(ops, calls, id) && id in data && k < |log|
    requires forall i :: 0 <= i < |log| ==> log[i] in calls
    ensures var cs := CallsOf(calls, log);
            Told(phase, calls, log[k], n) <==> Granted(data[id], cs, k) && Number(data[id], cs, k) == n
  {
    var c, cs := log[k], CallsOf(calls, log);
    ReplayIsAfterAll(data, ops, calls, id, log[..k]);
    assert cs[..k] == CallsOf(calls, log[..k]);
    var before := Replay(data, ops, log[..k]);
    if calls[c].ReserveCall? {
      AnswerIffGranted(before, id, calls[c], n);
      SettledReserve(id, calls[c], phase[c]);
    }
    assert before[id] == AfterAll(data[id], cs[..k]);
    hide AfterAll, Replay, Atomic, Settled, SettledAnswer, OpOf, Reserve, Complete;
    assert SettledAnswer(ops[c], phase[c]) == ReplayAnswer(data, ops, log, k);
  }

  lemma AnswerIffGranted(data: map<Id, Session>, id: Id, call: SessionCall, n: int)
    requires id in data && call.ReserveCall?
    ensures var r, v := Atomic(data, OpOf(id, call)).1, Reserve(call.now)(data[id]);
            r.Returned? && r.value.iterationCount == n <==> v.Replace? && v.value.iterationCount == n
  {}

  lemma SettledReserve(id: Id, call: SessionCall, phase: Phase<Session>)
    requires call.ReserveCall?
    ensures Settled(OpOf(id, call), phase) && !phase.Finished? ==> SettledAnswer(OpOf(id, call), phase).Rejected?
    ensures phase.Finished? ==> SettledAnswer(OpOf(id, call), phase) == phase.response
  {}

  /** The log, as calls on the session, explains the stored session and every answer. */
  lemma LogExplains(states: seq<System<Id, Session>>, trace: seq<Action>, i: nat, calls: map<int, SessionCall>, id: Id)
    requires Behaves(states, trace) && i <= |trace| && Calls(states[0].ops, calls, id) && id in states[0].data
    ensures LogsSettled(states[i].ops, states[i].phase, states[i].log)
    ensures Explains(states[0].data, states[i].ops, states[i].phase, states[i].log)
    ensures Calls(states[i].ops, calls, id)
    ensures forall k :: 0 <= k < |states[i].log| ==> states[i].log[k] in calls
    ensures id in states[i].data && states[i].data[id] == AfterAll(states[0].data[id], CallsOf(calls, states[i].log))
  {
    AlwaysRefines(states, trace, i);
    ReplayIsAfterAll(states[0].data, states[i].ops, calls, id, states[i].log);
  }

  lemma ToldAreNumbers(data: map<Id, Session>, ops: map<int, Op<Id, Session>>, phase: map<int, Phase<Session>>,
                       log: seq<int>, calls: map<int, SessionCall>, id: Id, n: int)
    requires LogsSettled(ops, phase, log) && Explains(data, ops, phase, log)
    requires Calls(ops, calls, id) && id in data && forall i :: 0 <= i < |log| ==> log[i] in calls
    requires SetUpOnce(data[id], CallsOf(calls, log))
    ensures var last := AfterAll(data[id], CallsOf(calls, log));
            && (SomeoneTold(phase, calls, n) <==> data[id].iterationCount < n <= last.iterationCount)
            && (SomeoneTold(phase, calls, n) ==> n <= data[id].maxIterations)
    ensures AtMostOneTold(phase, calls, n)
  {
    var cs := CallsOf(calls, log);
    hide Granted, Number, AfterAll;
    assert cs[..|cs|] == cs;
    forall c | Told(phase, calls, c, n)
      ensures exists k :: 0 <= k < |log| && log[k] == c && Granted(data[id], cs, k) && Number(data[id], cs, k) == n
      ensures data[id].iterationCount < n <= AfterAll(data[id], cs).iterationCount && n <= data[id].maxIterations
    {
      assert Settled(ops[c], phase[c]);
      var k :| 0 <= k < |log| && log[k] == c;
      ToldIffGranted(data, ops, phase, log, calls, id, k, n);
      GrantWithin(data[id], cs, k, |cs|);
      GrantCounts(data[id], cs, k);
    }
    if data[id].iterationCount < n <= AfterAll(data[id], cs).iterationCount {
      var k := EachNumberGrantedOnce(data[id], cs, n);
      ToldIffGranted(data, ops, phase, log, calls, id, k, n);
      assert Told(phase, calls, log[k], n);
    }
    forall c, d | Told(phase, calls, c, n) && Told(phase, calls, d, n) ensures c == d {
      var k :| 0 <= k < |log| && log[k] == c && Granted(data[id], cs, k) && Number(data[id], cs, k) == n;
      var l :| 0 <= l < |log| && log[l] == d && Granted(data[id], cs, l) && Number(data[id], cs, l) == n;
      if k < l { GrantsIncrease(data[id], cs, k, l); }
      if l < k { GrantsIncrease(data[id], cs, l, k); }
    }
  }

  /** At most one client is the session's set-up. */
  ghost predicate OneSetup(s: Session, calls: map<int, SessionCall>) {
    && (forall c :: c in calls && calls[c].SetupCall? ==> FromInsertion(s, calls[c].record))
    && (forall c, d :: c in calls && d in calls && calls[c].SetupCall? && calls[d].SetupCall? ==> c == d)
  }

  lemma OneSetupInLog(s: Session, ops: map<int, Op<Id, Session>>, phase: map<int, Phase<Session>>, log: seq<int>,
                      calls: map<int, SessionCall>)
    requires OneSetup(s, calls) && LogsSettled(ops, phase, log) && forall i :: 0 <= i < |log| ==> log[i] in calls
    ensures SetUpOnce(s, CallsOf(calls, log))
  {
    hide Settled;
    var cs := CallsOf(calls, log);
    forall i, j | 0 <= i < j < |cs| ensures !(cs[i].SetupCall? && cs[j].SetupCall?) {
      assert log[i] in calls && log[j] in calls && log[i] != log[j];
    }
    forall i | 0 <= i < |cs| && cs[i].SetupCall? ensures FromInsertion(s, cs[i].record) {
      var c := log[i];
      assert c in calls && cs[i] == calls[c];
      assert calls[c].SetupCall?;
      assert FromInsertion(s, calls[c].record);
    }
  }

  /** The numbering theorem.  Any number of concurrent reservations and completions, each
      retried any number of times, on a session that is running already or is inserted and
      then set up by one concurrent update: at every moment the numbers callers have been
      given are exactly 1 .. IterationCount, no two callers were given the same one, and
      none exceeds the session's limit. */
  lemma NumbersAreExactlyOneToCount(states: seq<System<Id, Session>>, trace: seq<Action>, i: nat,
                                    calls: map<int, SessionCall>, id: Id)
    requires Behaves(states, trace) && i <= |trace| && Calls(states[0].ops, calls, id)
    requires id in states[0].data && states[0].data[id].iterationCount == 0 && OneSetup(states[0].data[id], calls)
    ensures id in states[i].data
    ensures forall n :: SomeoneTold(states[i].phase, calls, n) <==> 1 <= n <= states[i].data[id].iterationCount
    ensures forall n :: SomeoneTold(states[i].phase, calls, n) ==> n <= states[0].data[id].maxIterations
    ensures forall n :: AtMostOneTold(states[i].phase, calls, n)
  {
    LogExplains(states, trace, i, calls, id);
    var s := states[i];
    OneSetupInLog(states[0].data[id], s.ops, s.phase, s.log, calls);
    hide AtMostOneTold, SomeoneTold, LogsSettled, Explains, Behaves, AfterAll, SetUpOnce, OneSetup, Calls;
    forall n
      ensures SomeoneTold(s.phase, calls, n) <==> 1 <= n <= s.data[id].iterationCount
      ensures SomeoneTold(s.phase, calls, n) ==> n <= states[0].data[id].maxIterations
      ensures AtMostOneTold(s.phase, calls, n)
    {
      ToldAreNumbers(states[0].data, s.ops, s.phase, s.log, calls, id, n);
    }
  }

  // ----- how long a completion lasts -----

  /** The calls on one session that a run has made by each state, as one growing sequence. */
  lemma LogPrefix(states: seq<System<Id, Session>>, trace: seq<Action>, i: nat, j: nat, calls: map<int, SessionCall>,
                  id: Id)
    requires Behaves(states, trace) && i <= j <= |trace| && Calls(states[0].ops, calls, id) && id in states[0].data
    ensures forall k :: 0 <= k < |states[i].log| ==> states[i].log[k] in calls
    ensures forall k :: 0 <= k < |states[j].log| ==> states[j].log[k] in calls
    ensures |states[i].log| <= |states[j].log|
    ensures CallsOf(calls, states[i].log) == CallsOf(calls, states[j].log)[..|states[i].log|]
    ensures id in states[i].data && states[i].data[id] == AfterAll(states[0].data[id],
                                                                   CallsOf(calls, states[j].log)[..|states[i].log|])
  {
    LogExplains(states, trace, i, calls, id);
    LogExplains(states, trace, j, calls, id);
    LogGrows(states, trace, i, j);
    hide Behaves, LogsSettled, Explains, AfterAll, Calls;
  }

  /** A step settles at most one call. */
  lemma LogGrowsByOne(states: seq<System<Id, Session>>, trace: seq<Action>, i: nat)
    requires Behaves(states, trace) && i < |trace|
    ensures |states[i].log| <= |states[i + 1].log| <= |states[i].log| + 1
  {
    hide Atomic;
  }

  /** Every length of the log between two states is that of some state between them. */
  lemma {:induction false} LogReaches(states: seq<System<Id, Session>>, trace: seq<Action>, i: nat, j: nat, n: nat)
    returns (k: nat)
    requires Behaves(states, trace) && i <= j <= |trace| && |states[i].log| <= n <= |states[j].log|
    ensures i <= k <= j && |states[k].log| == n
    decreases j
  {
    if n == |states[j].log| {
      k := j;
    } else {
      LogGrowsByOne(states, trace, j - 1);
      k := LogReaches(states, trace, i, j - 1, n);
    }
  }

  ghost predicate CompletedIn(s: System<Id, Session>, id: Id) {
    id in s.data && s.data[id].status == Completed
  }

  /** Once a run shows the session completed it stays completed, in every state up to the
      j-th, if and only if no set-up update that writes another status takes effect there. */
  lemma CompletedForever(states: seq<System<Id, Session>>, trace: seq<Action>, i: nat, j: nat,
                         calls: map<int, SessionCall>, id: Id)
    requires Behaves(states, trace) && i <= j <= |trace| && Calls(states[0].ops, calls, id) && id in states[0].data
    requires CompletedIn(states[i], id)
    ensures |states[i].log| <= |states[j].log| && forall k :: 0 <= k < |states[j].log| ==> states[j].log[k] in calls
    ensures (forall k :: i <= k <= j ==> CompletedIn(states[k], id))
       <==> !Reopened(CallsOf(calls, states[j].log), |states[i].log|, |states[j].log|)
  {
    LogPrefix(states, trace, i, j, calls, id);
    var s, cs, a, b := states[0].data[id], CallsOf(calls, states[j].log), |states[i].log|, |states[j].log|;
    CompletedUntilReopened(s, cs, a, b);
    forall k | i <= k <= j
      ensures a <= |states[k].log| <= b && (CompletedIn(states[k], id) <==>
                                            AfterAll(s, cs[..|states[k].log|]).status == Completed)
    {
      LogPrefix(states, trace, i, k, calls, id);
      LogPrefix(states, trace, k, j, calls, id);
    }
    if forall k :: i <= k <= j ==> CompletedIn(states[k], id) {
      forall n | a <= n <= b ensures AfterAll(s, cs[..n]).status == Completed {
        var k := LogReaches(states, trace, i, j, n);
        assert CompletedIn(states[k], id);
      }
    }
  }

  /** Without a set-up update in between the whole outcome of the completion stays: the
      count, the stop reason, the summary and the success. */
  lemma OutcomeForever(states: seq<System<Id, Session>>, trace: seq<Action>, i: nat, j: nat,
                       calls: map<int, SessionCall>, id: Id)
    requires Behaves(states, trace) && i <= j <= |trace| && Calls(states[0].ops, calls, id) && id in states[0].data
    requires CompletedIn(states[i], id)
    requires forall k :: |states[i].log| <= k < |states[j].log| ==>
                         !(states[j].log[k] in calls && calls[states[j].log[k]].SetupCall?)
    ensures id in states[j].data && states[j].data[id].(updated := 0) == states[i].data[id].(updated := 0)
  {
    LogPrefix(states, trace, i, j, calls, id);
    LogPrefix(states, trace, j, j, calls, id);
    hide Behaves, Calls, AfterAll;
    CompletedStays(states[0].data[id], CallsOf(calls, states[j].log), |states[i].log|, |states[j].log|);
  }

  lemma RacingCalls(id: Id, s: Session, calls: map<int, SessionCall>)
    requires s.status == Initializing && calls.Keys == {0, 1} && calls[1].CompleteCall?
    requires calls[0].SetupCall? && calls[0].record.iterationCount == s.iterationCount
             && calls[0].record.maxIterations == s.maxIterations
    ensures OneSetup(s, calls) && Calls(map[0 := OpOf(id, calls[0]), 1 := OpOf(id, calls[1])], calls, id)
  {
  }

  /** And it does happen: the launched job completes the session before the set-up's own
      update, which then leaves it running. */
  lemma SetupUpdateReopens(id: Id, s: Session, req: CompleteRequest, now: int)
    returns (states: seq<System<Id, Session>>, trace: seq<Action>, calls: map<int, SessionCall>)
    requires s.status == Initializing
    ensures Behaves(states, trace) && |trace| == 5 && states[0].data == map[id := s]
    ensures Calls(states[0].ops, calls, id) && OneSetup(s, calls)
    ensures CompletedIn(states[4], id) && states[5].data == map[id := s.(status := Running, updated := now)]
  {
    hide Calls, OneSetup;
    calls := map[0 := SetupCall(s.(status := Running, updated := now)), 1 := CompleteCall(req)];
    var ops := map[0 := OpOf(id, calls[0]), 1 := OpOf(id, calls[1])];
    var s0: System<Id, Session> := System(map[id := s], ops, map[0 := Idle, 1 := Idle], []);
    var s1 := Do(s0, Call(0));
    var s2 := Do(s1, Call(1));
    var s3 := Do(s2, Read(1));
    var s4 := Do(s3, Finish(1));
    var s5 := Do(s4, Read(0));
    RacingCalls(id, s, calls);
    states, trace := [s0, s1, s2, s3, s4, s5], [Call(0), Call(1), Read(1), Finish(1), Read(0)];
  }
}
