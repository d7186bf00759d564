/** What a rehydration leaves for the next sync: the base it served is never taken for a
    refused one, so the next sync of it lists its segments (internal/docdb/cache.go:140-232). */
module SyncProgress {
  import opened Upserts
  import opened Convergence
  import opened Segments
  import opened Replication
  import opened Options

  /** The served base is not the refused one, and a hydration under way is for another than
      the served one and will not leave its own base refused. */
  ghost predicate NotRefused(cache: Option<CacheState>, sync: Sync) {
    && (cache.Some? ==> cache.value.refusedTag != Some(cache.value.baseTag))
    && (sync.Hydrating? && cache.Some? ==> cache.value.baseTag != sync.tag)
    && (sync.Replayed? ==> sync.next.refusedTag.None?)
  }

  lemma StepKeepsNotRefused(cfg: Config, s: System, a: Action)
    requires Enabled(cfg, s, a) && NotRefused(s.cache, s.sync)
    ensures NotRefused(Do(cfg, s, a).cache, Do(cfg, s, a).sync)
  {
    hide Scans, ApplySegment, Replay, NewSegments, Since, Fold;
    if a.SyncApply? { hide Hydrate; AppliedKeepsTags(s, s.sync.todo[0]); }
  }

  lemma AppliedKeepsTags(s: System, n: int)
    requires s.cache.Some? && n in s.store
    ensures var c := ApplySegment(s.cache.value, n, s.store[n].recs);
            c.baseTag == s.cache.value.baseTag && c.refusedTag == s.cache.value.refusedTag
  {
  }

  lemma {:induction false} AlwaysNotRefused(cfg: Config, states: seq<System>, trace: seq<Action>, i: nat)
    requires Behaves(cfg, states, trace) && i <= |trace|
    ensures |states| == |trace| + 1 && NotRefused(states[i].cache, states[i].sync)
  {
    hide Behaves, Enabled, Do, NotRefused;
    if i == 0 {
      FirstState(cfg, states, trace);
    } else {
      AlwaysNotRefused(cfg, states, trace, i - 1);
      NextState(cfg, states, trace, i - 1);
      StepKeepsNotRefused(cfg, states[i - 1], trace[i - 1]);
    }
  }

  lemma FirstState(cfg: Config, states: seq<System>, trace: seq<Action>)
    requires Behaves(cfg, states, trace)
    ensures |states| == |trace| + 1 && NotRefused(states[0].cache, states[0].sync) && Underway(states[0].sync).None?
  {
  }

  lemma NextState(cfg: Config, states: seq<System>, trace: seq<Action>, i: nat)
    requires Behaves(cfg, states, trace) && i < |trace|
    ensures |states| == |trace| + 1
    ensures Enabled(cfg, states[i], trace[i]) && states[i + 1] == Do(cfg, states[i], trace[i])
  {
  }

  /** In every state of every run: a sync that finds the served base again lists its
      segments; it is skipped exactly when it finds the one refused, which is another; and any
      third base is downloaded. */
  lemma NextSync(cfg: Config, states: seq<System>, trace: seq<Action>, i: nat)
    requires Behaves(cfg, states, trace) && i < |trace| && trace[i].SyncStat? && states[i].cache.Some?
    ensures |states| == |trace| + 1 && states[i].base.Some?
    ensures var tag, c := states[i].base.value.tag, states[i].cache.value;
            && (states[i + 1].sync == Listing <==> tag == c.baseTag)
            && (states[i + 1].sync == Idle <==> c.refusedTag == Some(tag))
            && (states[i + 1].sync == Hydrating(tag) <==> tag != c.baseTag && c.refusedTag != Some(tag))
  {
    AlwaysNotRefused(cfg, states, trace, i);
    NextState(cfg, states, trace, i);
    hide Behaves;
  }

  /** The tag of the base that a hydration under way is for. */
  function Underway(sync: Sync): Option<int> {
    match sync
    case Hydrating(tag) => Some(tag)
    case Fetched(tag, _) => Some(tag)
    case Replayed(next, _) => Some(next.baseTag)
    case _ => None
  }

  /** Only a stat begins a hydration, for the base it finds. */
  lemma UnderwayFrom(cfg: Config, s: System, a: Action)
    requires Enabled(cfg, s, a)
    ensures var t := Underway(Do(cfg, s, a).sync);
            t.Some? ==> if a.SyncStat? then s.base.Some? && t == Some(s.base.value.tag) else t == Underway(s.sync)
  {
    hide Scans, ApplySegment, Replay, NewSegments, Since, Fold;
  }

  lemma {:induction false} BegunByAStat(cfg: Config, states: seq<System>, trace: seq<Action>, i: nat) returns (j: nat)
    requires Behaves(cfg, states, trace) && i <= |trace|
    requires |states| == |trace| + 1 && Underway(states[i].sync).Some?
    ensures j < i && trace[j].SyncStat? && states[j].base.Some?
    ensures Underway(states[i].sync) == Some(states[j].base.value.tag)
    decreases i
  {
    hide Underway, Behaves, Enabled, Do;
    FirstState(cfg, states, trace);
    if i > 0 {
      NextState(cfg, states, trace, i - 1);
      UnderwayFrom(cfg, states[i - 1], trace[i - 1]);
      if trace[i - 1].SyncStat? { j := i - 1; } else { j := BegunByAStat(cfg, states, trace, i - 1); }
    }
  }

  /** A swap leaves the tag that its sync's stat found as the served base's, nothing refused,
      and no sync under way. */
  lemma SwapServesTheStat(cfg: Config, states: seq<System>, trace: seq<Action>, i: nat) returns (j: nat)
    requires Behaves(cfg, states, trace) && i < |trace| && trace[i].SyncSwap?
    ensures |states| == |trace| + 1
    ensures j < i && trace[j].SyncStat? && states[j].base.Some?
    ensures states[i + 1].cache.Some? && states[i + 1].sync.Idle?
    ensures states[i + 1].cache.value.baseTag == states[j].base.value.tag && states[i + 1].cache.value.refusedTag.None?
  {
    AlwaysNotRefused(cfg, states, trace, i);
    NextState(cfg, states, trace, i);
    hide Behaves;
    j := BegunByAStat(cfg, states, trace, i);
  }
}
