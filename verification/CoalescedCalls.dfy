/** Whole calls of the coalescing cache: what a call returns is the outcome of the entry that
    was mapped when it began (internal/cache/cache.go:35-70). */
module CoalescedCalls {
  import opened Coalescing

  /** In the middle of a call with this entry, or returned from it. */
  predicate CallOn(p: Phase, k: Key, id: Id) {
    !p.Idle? && !p.Missed? && p.key == k && p.id == id
  }

  /** t does not go on to its next call between steps m and n. */
  ghost predicate SameCall(trace: seq<Action>, t: Thread, m: nat, n: nat)
    requires n <= |trace|
  {
    forall x :: m <= x < n ==> trace[x] != Rest(t)
  }

  lemma StaysOnCall(s: State, a: Action, t: Thread, k: Key, id: Id)
    requires Enabled(s, a) && t in s.phase && CallOn(s.phase[t], k, id) && a != Rest(t)
    ensures t in Do(s, a).phase && CallOn(Do(s, a).phase[t], k, id)
  {
  }

  /** A caller stays on the entry it obtained until it goes on. */
  lemma {:induction false} OneEntryPerCall(states: seq<State>, trace: seq<Action>, m: nat, n: nat, t: Thread, k: Key,
                                           id: Id)
    requires Behaves(states, trace) && m <= n <= |trace| && SameCall(trace, t, m, n)
    requires t in states[m].phase && CallOn(states[m].phase[t], k, id)
    ensures t in states[n].phase && CallOn(states[n].phase[t], k, id)
    decreases n
  {
    if m < n {
      OneEntryPerCall(states, trace, m, n - 1, t, k, id);
      StaysOnCall(states[n - 1], trace[n - 1], t, k, id);
    }
  }

  /** What a call obtains: Get and GetOrSet the entry mapped under the key, and leave the map
      as it is; Get nothing, and GetOrSet an entry of its own that it maps, only where there is
      none; Set always an entry of its own that it maps. */
  lemma Obtains(states: seq<State>, trace: seq<Action>, m: nat)
    requires Behaves(states, trace) && m < |trace|
    requires trace[m].Load? || trace[m].LoadOrStore? || trace[m].Store?
    ensures var before, after, a, k := states[m], states[m + 1], trace[m], trace[m].key;
            && a.t in after.phase
            && if k in before.data && !a.Store? then
                 after.phase[a.t] == Has(k, before.data[k]) && after.data == before.data
                     && after.entries == before.entries
               else if a.Load? then
                 after.phase[a.t] == Missed && after.data == before.data && after.entries == before.entries
               else
                 && a.id !in before.entries && after.entries == before.entries[a.id := Entry(k, NotRun, 0)]
                 && after.phase[a.t] == Has(k, a.id) && after.data == before.data[k := a.id]
  {
  }

  /** Key k is mapped to one entry from state i to state j. */
  ghost predicate Mapped(states: seq<State>, k: Key, id: Id, i: nat, j: nat)
    requires j < |states|
  {
    forall m :: i <= m <= j ==> k in states[m].data && states[m].data[k] == id
  }

  /** While key k stays mapped to one entry, every Get or GetOrSet of k that begins is on that
      entry: it finds something, a fetch it starts is that entry's first, and the outcome it
      returns is that entry's. */
  lemma SharesTheEntry(states: seq<State>, trace: seq<Action>, i: nat, j: nat, k: Key, id: Id, m: nat, n: nat)
    requires Behaves(states, trace) && i <= j < |states| && Mapped(states, k, id, i, j)
    requires i <= m <= j && m < n <= |trace|
    requires (trace[m].Load? || trace[m].LoadOrStore?) && trace[m].key == k && SameCall(trace, trace[m].t, m + 1, n)
    ensures var t := trace[m].t;
            && t in states[n].phase && CallOn(states[n].phase[t], k, id) && id in states[n].entries
            && (n < |trace| && trace[n] == StartFetch(t) ==>
                  states[n].entries[id].runs == 0 && states[n + 1].entries[id].runs == 1
                  && forall other :: other in states[n].entries && other != id ==>
                       states[n + 1].entries[other] == states[n].entries[other])
            && (states[n].phase[t].Returned? ==> states[n].entries[id].cell == Done(states[n].phase[t].outcome))
  {
    Obtains(states, trace, m);
    OneEntryPerCall(states, trace, m + 1, n, trace[m].t, k, id);
    AlwaysInv(states, trace, n);
    var s, t := states[n], trace[m].t;
    assert PhaseOk(s.entries, t, s.phase[t]);
    assert EntryOk(s.phase, s.entries[id], id);
    hide Behaves;
    if n < |trace| && trace[n] == StartFetch(t) {
      FirstFetch(states, trace, n, t);
    }
  }

  lemma FirstFetch(states: seq<State>, trace: seq<Action>, n: nat, t: Thread)
    requires Behaves(states, trace) && n < |trace| && trace[n] == StartFetch(t) && Inv(states[n])
    ensures t in states[n].phase && states[n].phase[t].Has?
    ensures var id, before, after := states[n].phase[t].id, states[n].entries, states[n + 1].entries;
            && id in before && before[id].runs == 0 && after == before[id := after[id]] && after[id].runs == 1
  {
    assert Enabled(states[n], trace[n]) && states[n + 1] == Do(states[n], trace[n]);
    assert EntryOk(states[n].phase, states[n].entries[states[n].phase[t].id], states[n].phase[t].id);
  }

  /** Coalescing: two calls of Get or GetOrSet that begin while the key stays mapped to one
      entry return the same outcome, and at most one fetch is ever made for them. */
  lemma CallsCoalesce(states: seq<State>, trace: seq<Action>, i: nat, j: nat, k: Key, id: Id,
                      m: nat, n: nat, m': nat, n': nat)
    requires Behaves(states, trace) && i <= j < |states| && Mapped(states, k, id, i, j)
    requires i <= m <= j && m < n <= |trace| && i <= m' <= j && m' < n' <= |trace| && n <= n'
    requires (trace[m].Load? || trace[m].LoadOrStore?) && trace[m].key == k && SameCall(trace, trace[m].t, m + 1, n)
    requires (trace[m'].Load? || trace[m'].LoadOrStore?) && trace[m'].key == k
    requires SameCall(trace, trace[m'].t, m' + 1, n')
    ensures var t, u := trace[m].t, trace[m'].t;
            && t in states[n].phase && u in states[n'].phase
            && (states[n].phase[t].Returned? && states[n'].phase[u].Returned? ==>
                  states[n].phase[t].outcome == states[n'].phase[u].outcome)
            && id in states[n'].entries && states[n'].entries[id].runs <= 1
  {
    SharesTheEntry(states, trace, i, j, k, id, m, n);
    SharesTheEntry(states, trace, i, j, k, id, m', n');
    OneFetchOneAnswer(states, trace, n, n', trace[m].t, trace[m'].t);
  }

  /** A call that obtains an entry of its own returns that entry's outcome. */
  lemma ReturnsItsOwn(states: seq<State>, trace: seq<Action>, m: nat, n: nat)
    requires Behaves(states, trace) && m < n <= |trace| && SameCall(trace, trace[m].t, m + 1, n)
    requires trace[m].Store? || (trace[m].LoadOrStore? && trace[m].key !in states[m].data)
    ensures var t, k, id := trace[m].t, trace[m].key, trace[m].id;
            && k in states[m + 1].data && states[m + 1].data[k] == id && id !in states[m].entries
            && t in states[n].phase && CallOn(states[n].phase[t], k, id)
            && (states[n].phase[t].Returned? ==>
                  id in states[n].entries && states[n].entries[id].cell == Done(states[n].phase[t].outcome)
                  && states[n].entries[id].runs == 1)
  {
    Obtains(states, trace, m);
    OneEntryPerCall(states, trace, m + 1, n, trace[m].t, trace[m].key, trace[m].id);
    if states[n].phase[trace[m].t].Returned? { ReturnsTheFetch(states, trace, n, trace[m].t); }
  }

  lemma CellSteps(s: State, a: Action, id: Id)
    requires Inv(s) && Enabled(s, a) && id in Do(s, a).entries && Do(s, a).entries[id].cell.Done?
    ensures || (id in s.entries && s.entries[id].cell == Do(s, a).entries[id].cell)
            || (a.EndFetch? && s.phase[a.t].Fetching? && s.phase[a.t].id == id
                && Do(s, a).entries[id].cell == Done(a.outcome))
  {
    assert PhaseOk(s.entries, a.t, s.phase[a.t]);
  }

  /** The outcome of an entry is what its fetch came to. */
  lemma {:induction false} OutcomeIsTheFetchs(states: seq<State>, trace: seq<Action>, n: nat, id: Id) returns (m: nat)
    requires Behaves(states, trace) && n <= |trace| && id in states[n].entries && states[n].entries[id].cell.Done?
    ensures m < n && trace[m].EndFetch? && states[n].entries[id].cell == Done(trace[m].outcome)
    ensures trace[m].t in states[m].phase
    ensures states[m].phase[trace[m].t].Fetching? && states[m].phase[trace[m].t].id == id
  {
    if n == 0 {
      assert false;
    } else {
      AlwaysInv(states, trace, n - 1);
      var s, a := states[n - 1], trace[n - 1];
      assert Enabled(s, a) && states[n] == Do(s, a);
      CellSteps(s, a, id);
      if id in s.entries && s.entries[id].cell == states[n].entries[id].cell {
        m := OutcomeIsTheFetchs(states, trace, n - 1, id);
      } else {
        m := n - 1;
      }
    }
  }

  /** After Del the key is unmapped, and no other key is touched. */
  lemma DelUnmaps(states: seq<State>, trace: seq<Action>, m: nat)
    requires Behaves(states, trace) && m < |trace| && trace[m].Delete?
    ensures states[m + 1].data == states[m].data - {trace[m].key} && states[m + 1].entries == states[m].entries
  {
  }
}
