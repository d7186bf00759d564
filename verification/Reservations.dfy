/** What reservations are answered: granted exactly while the session runs and its limit is
    not reached (internal/api/agentapiservice/iteration.go:38-72). */
module Reservations {
  import opened Transactions
  import opened Sessions

  /** The answer to a reservation that finds the session like this. */
  lemma AnswerTo(s: Session, now: int)
    ensures var v := Reserve(now)(s);
            && (v.Replace? <==> s.status == Running && s.iterationCount < s.maxIterations)
            && (v.Replace? ==> v.value == s.(iterationCount := s.iterationCount + 1, updated := now))
            && (v == Reject(LIMIT) <==> s.status == Running && s.iterationCount >= s.maxIterations)
            && (v == Reject(NOT_RUNNING) <==> s.status != Running)
            && !v.Keep?
  {
  }

  /** In every history a finished reservation was answered as the session was at its place:
      with the count plus one if and only if the session was running below its limit, and
      else with the error that says which. */
  lemma AnsweredAsFound(states: seq<System<Id, Session>>, trace: seq<Action>, i: nat,
                        calls: map<int, SessionCall>, id: Id, c: int)
    returns (k: nat)
    requires Behaves(states, trace) && i <= |trace| && Calls(states[0].ops, calls, id) && id in states[0].data
    requires c in states[i].phase && states[i].phase[c].Finished? && c in calls && calls[c].ReserveCall?
    ensures forall m :: 0 <= m < |states[i].log| ==> states[i].log[m] in calls
    ensures k < |states[i].log| && states[i].log[k] == c
    ensures var found := AfterAll(states[0].data[id], CallsOf(calls, states[i].log)[..k]);
            var r := states[i].phase[c].response;
            && (r.Returned? <==> found.status == Running && found.iterationCount < found.maxIterations)
            && (r.Returned? ==> r.value == found.(iterationCount := found.iterationCount + 1, updated := calls[c].now))
            && (r == Rejected(LIMIT) <==> found.status == Running && found.iterationCount >= found.maxIterations)
            && (r == Rejected(NOT_RUNNING) <==> found.status != Running)
  {
    LogExplains(states, trace, i, calls, id);
    OptimisticRefinesLocked(states, trace, i);
    var s, data := states[i], states[0].data;
    k :| 0 <= k < |s.log| && s.log[k] == c && s.phase[c].response == ReplayAnswer(data, s.ops, s.log, k);
    hide Behaves, LogsSettled, Explains, AfterAll, Reserve, Replay, ReplayAnswer;
    AnswerAt(data, s.ops, calls, id, s.log, k);
    AnswerTo(AfterAll(data[id], CallsOf(calls, s.log)[..k]), calls[c].now);
  }

  lemma AnswerAt(data: map<Id, Session>, ops: map<int, Op<Id, Session>>, calls: map<int, SessionCall>, id: Id,
                 log: seq<int>, k: nat)
    requires Calls(ops, calls, id) && id in data && k < |log| && forall m :: 0 <= m < |log| ==> log[m] in calls
    requires calls[log[k]].ReserveCall?
    ensures ReplayAnswer(data, ops, log, k)
         == Answer(Reserve(calls[log[k]].now)(AfterAll(data[id], CallsOf(calls, log)[..k])))
  {
    ReplayIsAfterAll(data, ops, calls, id, log[..k]);
    var cs := CallsOf(calls, log[..k]);
    assert CallsOf(calls, log)[..k] == cs;
    var before := Replay(data, ops, log[..k]);
    assert before == data[id := AfterAll(data[id], cs)];
    assert before[id] == AfterAll(data[id], cs);
    hide AfterAll, Replay;
    var c := log[k];
    assert c in calls && ops[c] == OpOf(id, calls[c]);
    assert Atomic(before, ops[c]).1 == Answer(Reserve(calls[c].now)(before[id]));
  }

  // ----- how many are granted -----

  /** The i-th call is a reservation, and finds the session running. */
  predicate Asks(s: Session, calls: seq<SessionCall>, i: nat)
    requires i < |calls|
  {
    calls[i].ReserveCall? && AfterAll(s, calls[..i]).status == Running
  }

  function Asked(s: Session, calls: seq<SessionCall>, n: nat): nat
    requires n <= |calls|
  {
    if n == 0 then 0 else Asked(s, calls, n - 1) + if Asks(s, calls, n - 1) then 1 else 0
  }

  function Grants(s: Session, calls: seq<SessionCall>, n: nat): nat
    requires n <= |calls|
  {
    if n == 0 then 0 else Grants(s, calls, n - 1) + if Granted(s, calls, n - 1) then 1 else 0
  }

  function Left(s: Session): nat {
    if s.iterationCount < s.maxIterations then s.maxIterations - s.iterationCount else 0
  }

  function Min(a: nat, b: nat): nat { if a < b then a else b }

  lemma AfterOne(s: Session, calls: seq<SessionCall>, n: nat)
    requires n < |calls|
    ensures var before, after := AfterAll(s, calls[..n]), AfterAll(s, calls[..n + 1]);
            && (Granted(s, calls, n) <==>
                calls[n].ReserveCall? && before.status == Running && before.iterationCount < before.maxIterations)
            && (calls[n].SetupCall? ==> after == calls[n].record)
            && (!calls[n].SetupCall? ==>
                  after.iterationCount == before.iterationCount + if Granted(s, calls, n) then 1 else 0)
  {
    assert calls[..n + 1][..n] == calls[..n];
  }

  /** Before its set-up a session is asked nothing while running. */
  lemma {:induction false} NoneBeforeSetup(s: Session, calls: seq<SessionCall>, n: nat)
    requires n <= |calls| && s.status == Initializing && forall k :: 0 <= k < n ==> !calls[k].SetupCall?
    ensures Asked(s, calls, n) == 0 == Grants(s, calls, n)
  {
    if n > 0 {
      NoneBeforeSetup(s, calls, n - 1);
      NothingBeforeSetup(s, calls, n - 1);
      AfterOne(s, calls, n - 1);
      hide AfterAll;
    }
  }

  /** Over any order of calls: the reservations granted are as many as were made while the
      session was running, or as the limit left, whichever is fewer. */
  lemma {:induction false} GrantsAreTheFewer(s: Session, calls: seq<SessionCall>, n: nat)
    requires n <= |calls| && SetUpOnce(s, calls)
    ensures Grants(s, calls, n) == Min(Asked(s, calls, n), Left(s))
    ensures AfterAll(s, calls[..n]).iterationCount == s.iterationCount + Grants(s, calls, n)
    ensures AfterAll(s, calls[..n]).maxIterations == s.maxIterations
  {
    if n == 0 {
      assert calls[..0] == [];
    } else {
      GrantsAreTheFewer(s, calls, n - 1);
      AfterOne(s, calls, n - 1);
      CountOnlyGrows(s, calls, n, n);
      if calls[n - 1].SetupCall? {
        assert forall k :: 0 <= k < n - 1 ==> !calls[k].SetupCall?;
        NoneBeforeSetup(s, calls, n - 1);
      }
      hide AfterAll, Granted;
    }
  }

  /** The clients whose reservation went through. */
  ghost function ToldClients(phase: map<int, Phase<Session>>, calls: map<int, SessionCall>): set<int> {
    set c | c in phase && c in calls && calls[c].ReserveCall? && phase[c].Finished? && phase[c].response.Returned?
  }

  /** Those of the first n places of the log whose reservation is granted. */
  ghost function GrantedClients(s: Session, calls: seq<SessionCall>, log: seq<int>, n: nat): set<int>
    requires n <= |log| == |calls|
  {
    set k | 0 <= k < n && Granted(s, calls, k) :: log[k]
  }

  lemma {:induction false} GrantedClientsCount(s: Session, calls: seq<SessionCall>, log: seq<int>, n: nat)
    requires n <= |log| == |calls| && forall i, j :: 0 <= i < j < |log| ==> log[i] != log[j]
    ensures |GrantedClients(s, calls, log, n)| == Grants(s, calls, n)
  {
    hide Granted;
    if n > 0 {
      GrantedClientsCount(s, calls, log, n - 1);
      var init := GrantedClients(s, calls, log, n - 1);
      assert log[n - 1] !in init;
      assert GrantedClients(s, calls, log, n) == if Granted(s, calls, n - 1) then init + {log[n - 1]} else init;
    }
  }

  lemma ToldAreGranted(data: map<Id, Session>, ops: map<int, Op<Id, Session>>, phase: map<int, Phase<Session>>,
                       log: seq<int>, calls: map<int, SessionCall>, id: Id)
    requires LogsSettled(ops, phase, log) && Explains(data, ops, phase, log)
    requires Calls(ops, calls, id) && id in data && forall k :: 0 <= k < |log| ==> log[k] in calls
    ensures ToldClients(phase, calls) == GrantedClients(data[id], CallsOf(calls, log), log, |log|)
  {
    var cs := CallsOf(calls, log);
    hide Granted, Number, AfterAll;
    forall c | c in ToldClients(phase, calls) ensures c in GrantedClients(data[id], cs, log, |log|) {
      assert Settled(ops[c], phase[c]);
      var k :| 0 <= k < |log| && log[k] == c;
      ToldIffGranted(data, ops, phase, log, calls, id, k, phase[c].response.value.iterationCount);
    }
    forall c | c in GrantedClients(data[id], cs, log, |log|) ensures c in ToldClients(phase, calls) {
      var k :| 0 <= k < |log| && Granted(data[id], cs, k) && log[k] == c;
      ToldIffGranted(data, ops, phase, log, calls, id, k, Number(data[id], cs, k));
    }
  }

  /** In every state of every history: of the reservations that took effect while the session
      was running, as many callers have been told a number as there were, or as the limit
      left, whichever is fewer. No iteration of a session is withheld, and none too many given. */
  lemma NoneIsWithheld(states: seq<System<Id, Session>>, trace: seq<Action>, i: nat, calls: map<int, SessionCall>,
                       id: Id)
    requires Behaves(states, trace) && i <= |trace| && Calls(states[0].ops, calls, id)
    requires id in states[0].data && OneSetup(states[0].data[id], calls)
    ensures forall k :: 0 <= k < |states[i].log| ==> states[i].log[k] in calls
    ensures var s0, cs := states[0].data[id], CallsOf(calls, states[i].log);
            |ToldClients(states[i].phase, calls)| == Min(Asked(s0, cs, |cs|), Left(s0))
  {
    LogExplains(states, trace, i, calls, id);
    var s, s0 := states[i], states[0].data[id];
    OneSetupInLog(s0, s.ops, s.phase, s.log, calls);
    var cs := CallsOf(calls, s.log);
    ToldAreGranted(states[0].data, s.ops, s.phase, s.log, calls, id);
    GrantedClientsCount(s0, cs, s.log, |s.log|);
    hide Behaves, Explains, AfterAll, Calls, OneSetup;
    GrantsAreTheFewer(s0, cs, |cs|);
  }
}
