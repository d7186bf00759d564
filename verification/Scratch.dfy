/** Provisioning a scratch VM: zone fall-through with a cool-down, and the teardown that
    must leave no VM behind (internal/api/agentapiservice/scratch_zone.go, scratch.go).
    What the cloud and the store answer is an arbitrary script fixed in advance. */
module Scratches {
  import opened Texts

  // ----- the configured zones -----

  /** The parts that are not blank, trimmed. */
  function Trimmed(parts: seq<string>): seq<string> {
    if parts == [] then []
    else
      var z := TrimSpace(parts[|parts| - 1]);
      Trimmed(parts[..|parts| - 1]) + if z == "" then [] else [z]
  }

  lemma {:induction false} TrimmedMember(parts: seq<string>, z: string)
    ensures z in Trimmed(parts) <==> z != "" && exists i :: 0 <= i < |parts| && TrimSpace(parts[i]) == z
  {
    if parts != [] {
      var n := |parts| - 1;
      TrimmedMember(parts[..n], z);
      assert forall i :: 0 <= i < n ==> parts[..n][i] == parts[i];
    }
  }

  /** parseScratchZones (cmd/agent-api/main.go:59-70): the zones of the flag in order, each
      what one comma-separated part trims to, and none of them empty. */
  method ParseScratchZones(scratchZones: string) returns (zones: seq<string>)
    ensures zones == Trimmed(Split(scratchZones, ','))
    ensures "" !in zones
  {
    var parts := Split(scratchZones, ',');
    zones := [];
    for i := 0 to |parts|
      invariant zones == Trimmed(parts[..i])
    {
      assert parts[..i + 1][..i] == parts[..i];
      var z := TrimSpace(parts[i]);
      if z != "" { zones := zones + [z]; }
    }
    assert parts[..|parts|] == parts;
    TrimmedMember(parts, "");
  }

  // ----- the cool-down -----

  const DEFAULT_TTL := 300

  /** The zone is still being skipped. */
  predicate Cooling(until: map<string, int>, zone: string, now: int) {
    zone in until && now < until[zone]
  }

  /** The zones not cooling down, in order. */
  function Active(until: map<string, int>, zones: seq<string>, now: int): seq<string> {
    if zones == [] then [] else
      (if Cooling(until, zones[0], now) then [] else [zones[0]]) + Active(until, zones[1..], now)
  }

  lemma {:induction false} ActiveAppend(until: map<string, int>, zones: seq<string>, z: string, now: int)
    ensures Active(until, zones + [z], now) == Active(until, zones, now) + if Cooling(until, z, now) then [] else [z]
  {
    if zones != [] {
      assert (zones + [z])[1..] == zones[1..] + [z];
      ActiveAppend(until, zones[1..], z, now);
    }
  }

  lemma {:induction false} ActiveIsSubset(until: map<string, int>, zones: seq<string>, now: int, z: string)
    ensures z in Active(until, zones, now) <==> z in zones && !Cooling(until, z, now)
  {
    if zones != [] { ActiveIsSubset(until, zones[1..], now, z); }
  }

  /** The expired entries of the listed zones are dropped. */
  function Pruned(until: map<string, int>, zones: seq<string>, now: int): map<string, int> {
    map z | z in until && !(z in zones && !Cooling(until, z, now)) :: until[z]
  }

  lemma PrunedAppend(until: map<string, int>, zones: seq<string>, z: string, now: int)
    ensures var before := Pruned(until, zones, now);
            && (Cooling(until, z, now) <==> z in before && now < before[z])
            && Pruned(until, zones + [z], now) == if z in before && now >= before[z] then before - {z} else before
  {
  }

  lemma NothingListed(until: map<string, int>, now: int)
    ensures Active(until, [], now) == [] && Pruned(until, [], now) == until
  {
  }

  /** Zones marked one after the other, the i-th at clock(from + i). */
  function MarkAll(until: map<string, int>, zones: seq<string>, ttl: int, clock: nat -> int,
                   from: nat): map<string, int> {
    if zones == [] then until
    else MarkAll(until, zones[..|zones| - 1], ttl, clock, from)[zones[|zones| - 1] := clock(from + |zones| - 1) + ttl]
  }

  class ZoneCooldown {
    const ttl: int
    var until: map<string, int>

    constructor (ttl: int)
      ensures this.ttl == (if ttl <= 0 then DEFAULT_TTL else ttl) && until == map[]
    {
      this.ttl := if ttl <= 0 then DEFAULT_TTL else ttl;
      until := map[];
    }

    method Mark(zone: string, now: int)
      modifies this
      ensures until == old(until)[zone := now + ttl]
    {
      until := until[zone := now + ttl];
    }

    method ActiveZones(zones: seq<string>, now: int) returns (out: seq<string>)
      modifies this
      ensures out == Active(old(until), zones, now)
      ensures until == Pruned(old(until), zones, now)
    {
      out := [];
      hide Active, Pruned, Cooling;
      NothingListed(until, now);
      assert zones[..0] == [];
      for i := 0 to |zones|
        invariant out == Active(old(until), zones[..i], now)
        invariant until == Pruned(old(until), zones[..i], now)
      {
        var z := zones[i];
        PrunedAppend(old(until), zones[..i], z, now);
        ActiveAppend(old(until), zones[..i], z, now);
        assert zones[..i + 1] == zones[..i] + [z];
        if z !in until {
          out := out + [z];
        } else if now >= until[z] {
          until := until - {z};
          out := out + [z];
        }
      }
      assert zones[..|zones|] == zones;
    }
  }

  /** What happens to one cool-down, with the time it happens at. */
  datatype CooldownEvent = Marked(zone: string, at: int) | Listed(zones: seq<string>, at: int)

  ghost predicate InTimeOrder(events: seq<CooldownEvent>) {
    forall i, j :: 0 <= i < j < |events| ==> events[i].at <= events[j].at
  }

  /** The state of the map after the events. */
  function After(ttl: int, events: seq<CooldownEvent>): map<string, int> {
    if events == [] then map[] else
    var before := After(ttl, events[..|events| - 1]);
    match events[|events| - 1]
    case Marked(z, at) => before[z := at + ttl]
    case Listed(zones, at) => Pruned(before, zones, at)
  }

  ghost predicate MarkedRecently(ttl: int, events: seq<CooldownEvent>, zone: string, now: int) {
    exists i :: 0 <= i < |events| && MarkCovers(ttl, events[i], zone, now)
  }

  predicate MarkCovers(ttl: int, e: CooldownEvent, zone: string, now: int) {
    e.Marked? && e.zone == zone && now < e.at + ttl
  }

  /** A zone is skipped if and only if a stockout was recorded for it less than ttl ago:
      pruning forgets nothing and a repeated mark extends, never shortens. */
  lemma {:induction false} SkippedIffMarkedRecently(ttl: int, events: seq<CooldownEvent>, zone: string, now: int)
    requires InTimeOrder(events) && forall i :: 0 <= i < |events| ==> events[i].at <= now
    ensures Cooling(After(ttl, events), zone, now) <==> MarkedRecently(ttl, events, zone, now)
  {
    if events != [] {
      var n := |events| - 1;
      var prior := events[..n];
      SkippedIffMarkedRecently(ttl, prior, zone, now);
      if MarkedRecently(ttl, prior, zone, now) {
        var i :| 0 <= i < |prior| && MarkCovers(ttl, prior[i], zone, now);
        assert events[i] == prior[i];
        assert events[i].at <= events[n].at;
      }
      if MarkedRecently(ttl, events, zone, now) && !MarkCovers(ttl, events[n], zone, now) {
        var i :| 0 <= i < |events| && MarkCovers(ttl, events[i], zone, now);
        assert prior[i] == events[i];
      }
    }
  }

  // ----- the cloud -----

  /** A stockout leaves no VM; any other error may or may not. */
  datatype InsertOutcome = Created(ip: string) | Stockout | Failed(left: bool)

  predicate Exists(o: InsertOutcome) { o.Created? || (o.Failed? && o.left) }

  /** A call that reports an error may have taken effect all the same. */
  datatype CallOutcome = Works | Fails(landed: bool)

  predicate Lands(o: CallOutcome) { o.Works? || o.landed }

  type Vm = (string, string)

  /** The VMs of one name. */
  function Named(vms: set<Vm>, name: string): set<Vm> {
    set v | v in vms && v.1 == name
  }

  class Gce {
    const inserts: nat -> InsertOutcome
    const deletes: nat -> CallOutcome
    var vms: set<Vm>
    var insertCalls: nat
    var deleteCalls: nat

    constructor (inserts: nat -> InsertOutcome, deletes: nat -> CallOutcome)
      ensures this.inserts == inserts && this.deletes == deletes && vms == {} && insertCalls == 0 && deleteCalls == 0
    {
      this.inserts, this.deletes := inserts, deletes;
      vms, insertCalls, deleteCalls := {}, 0, 0;
    }

    method InsertInstanceFromTemplate(zone: string, name: string) returns (o: InsertOutcome)
      modifies this
      ensures o == inserts(old(insertCalls)) && insertCalls == old(insertCalls) + 1 && deleteCalls == old(deleteCalls)
      ensures vms == old(vms) + if Exists(o) then {(zone, name)} else {}
    {
      o := inserts(insertCalls);
      insertCalls := insertCalls + 1;
      vms := vms + if Exists(o) then {(zone, name)} else {};
    }

    method DeleteInstance(zone: string, name: string) returns (o: CallOutcome)
      modifies this
      ensures o == deletes(old(deleteCalls)) && deleteCalls == old(deleteCalls) + 1 && insertCalls == old(insertCalls)
      ensures vms == old(vms) - if Lands(o) then {(zone, name)} else {}
    {
      o := deletes(deleteCalls);
      deleteCalls := deleteCalls + 1;
      vms := vms - if Lands(o) then {(zone, name)} else {};
    }
  }

  // ----- zone fall-through -----

  datatype Placement = Placed(ip: string) | NoZones | AllExhausted | OtherError

  /** How many of n insert calls starting at call `from` run out of stock before one does not. */
  function Stockouts(inserts: nat -> InsertOutcome, from: nat, n: nat): (k: nat)
    ensures k <= n
    ensures forall i :: 0 <= i < k ==> OutOfStock(inserts, from, i)
    ensures k < n ==> !OutOfStock(inserts, from, k)
    decreases n
  {
    if n == 0 || !OutOfStock(inserts, from, 0) then 0 else
      var k := Stockouts(inserts, from + 1, n - 1);
      assert forall i :: 1 <= i <= n ==> OutOfStock(inserts, from, i) == OutOfStock(inserts, from + 1, i - 1);
      k + 1
  }

  /** The i-th insert call counted from `from` finds its zone exhausted. */
  predicate OutOfStock(inserts: nat -> InsertOutcome, from: nat, i: nat) {
    inserts(from + i).Stockout?
  }

  /** The zones tried, in order: the active ones, or all when every one is cooling down. */
  function Candidates(until: map<string, int>, zones: seq<string>, now: int): seq<string> {
    var active := Active(until, zones, now);
    if active == [] then zones else active
  }

  /** A zone that is tried is not cooling down, unless every zone is. */
  ghost predicate Preferred(until: map<string, int>, zones: seq<string>, now: int, zone: string) {
    !(zone in until && now < until[zone]) || forall z :: z in zones ==> z in until && now < until[z]
  }

  /** Exactly those zones are tried. */
  lemma CandidatesArePreferred(until: map<string, int>, zones: seq<string>, now: int, zone: string)
    ensures zone in Candidates(until, zones, now) <==> zone in zones && Preferred(until, zones, now, zone)
  {
    forall z ensures z in Active(until, zones, now) <==> z in zones && !Cooling(until, z, now) {
      ActiveIsSubset(until, zones, now, z);
    }
    if Active(until, zones, now) != [] { assert Active(until, zones, now)[0] in Active(until, zones, now); }
  }

  lemma {:induction false} ActiveAt(until: map<string, int>, zones: seq<string>, now: int, i: nat) returns (p: nat)
    requires i < |Active(until, zones, now)|
    ensures p < |zones| && zones[p] == Active(until, zones, now)[i]
  {
    if Cooling(until, zones[0], now) {
      p := ActiveAt(until, zones[1..], now, i);
      p := p + 1;
    } else if i == 0 {
      p := 0;
    } else {
      p := ActiveAt(until, zones[1..], now, i - 1);
      p := p + 1;
    }
  }

  /** And in the order in which they are configured. */
  lemma {:induction false} CandidatesInOrder(until: map<string, int>, zones: seq<string>, now: int, i: nat, j: nat)
    returns (p: nat, q: nat)
    requires i < j < |Active(until, zones, now)|
    ensures p < q < |zones| && zones[p] == Active(until, zones, now)[i] && zones[q] == Active(until, zones, now)[j]
  {
    if Cooling(until, zones[0], now) {
      p, q := CandidatesInOrder(until, zones[1..], now, i, j);
      p, q := p + 1, q + 1;
    } else if i == 0 {
      q := ActiveAt(until, zones[1..], now, j - 1);
      p, q := 0, q + 1;
    } else {
      p, q := CandidatesInOrder(until, zones[1..], now, i - 1, j - 1);
      p, q := p + 1, q + 1;
    }
  }

  /** The first candidate that is not out of stock decides. */
  ghost predicate Decided(inserts: nat -> InsertOutcome, from: nat, candidates: seq<string>, p: Placement,
                          zone: string) {
    var k := Stockouts(inserts, from, |candidates|);
    if k == |candidates| then p == AllExhausted && zone == ""
    else zone == candidates[k] && p == Answer(inserts(from + k))
  }

  /** The deciding insertion leaves a VM behind, whether or not it reports success. */
  ghost predicate Leaves(inserts: nat -> InsertOutcome, from: nat, n: nat) {
    var k := Stockouts(inserts, from, n);
    k < n && Exists(inserts(from + k))
  }

  function Answer(o: InsertOutcome): Placement
  {
    match o
    case Created(ip) => Placed(ip)
    case Stockout => AllExhausted
    case Failed(_) => OtherError
  }

  ghost function CandidatesOf(cooldown: ZoneCooldown?, zones: seq<string>, now: int): seq<string>
    reads cooldown
  {
    if cooldown == null then zones else Candidates(cooldown.until, zones, now)
  }

  /** The loop over the zones. Those found out of stock are marked. */
  method TryZones(gce: Gce, candidates: seq<string>, cooldown: ZoneCooldown?, name: string, clock: nat -> int,
                  from: nat)
    returns (p: Placement, zone: string)
    modifies gce, cooldown
    ensures gce.deleteCalls == old(gce.deleteCalls)
    ensures Decided(gce.inserts, old(gce.insertCalls), candidates, p, zone)
    ensures gce.insertCalls <= old(gce.insertCalls) + Stockouts(gce.inserts, old(gce.insertCalls), |candidates|) + 1
    ensures cooldown != null ==>
      var k := Stockouts(gce.inserts, old(gce.insertCalls), |candidates|);
      cooldown.until == MarkAll(old(cooldown.until), candidates[..k], cooldown.ttl, clock, from)
    ensures gce.vms == old(gce.vms) + if Leaves(gce.inserts, old(gce.insertCalls), |candidates|) then {(zone, name)}
                                      else {}
    ensures p != AllExhausted ==> zone in candidates
  {
    ghost var calls := gce.insertCalls;
    for i := 0 to |candidates|
      invariant gce.deleteCalls == old(gce.deleteCalls) && gce.vms == old(gce.vms)
      invariant gce.insertCalls == calls + i
      invariant forall j :: 0 <= j < i ==> OutOfStock(gce.inserts, calls, j)
      invariant cooldown != null ==> cooldown.until == MarkAll(old(cooldown.until), candidates[..i], cooldown.ttl,
                                                               clock, from)
    {
      var z := candidates[i];
      var o := gce.InsertInstanceFromTemplate(z, name);
      assert o.Stockout? <==> OutOfStock(gce.inserts, calls, i);
      assert candidates[..i + 1][..i] == candidates[..i];
      if o.Created? { return Placed(o.ip), z; }
      if o.Stockout? {
        if cooldown != null { cooldown.Mark(z, clock(from + i)); }
        continue;
      }
      return OtherError, z;
    }
    assert candidates[..|candidates|] == candidates;
    return AllExhausted, "";
  }

  /** The zone returned is the only one that can hold the VM, and "" means none can. */
  method InsertWithFallthrough(gce: Gce, zones: seq<string>, cooldown: ZoneCooldown?, name: string, clock: nat -> int)
    returns (p: Placement, zone: string)
    modifies gce, cooldown
    ensures gce.deleteCalls == old(gce.deleteCalls)
    ensures zones == [] ==> p == NoZones && zone == "" && gce.insertCalls == old(gce.insertCalls)
    ensures zones != [] ==> Decided(gce.inserts, old(gce.insertCalls), old(CandidatesOf(cooldown, zones, clock(0))), p,
                                    zone)
    ensures zones != [] ==>
      gce.vms == old(gce.vms) + if Leaves(gce.inserts, old(gce.insertCalls),
                                          |old(CandidatesOf(cooldown, zones, clock(0)))|) then {(zone, name)} else {}
    ensures gce.vms == old(gce.vms) || (gce.vms == old(gce.vms) + {(zone, name)} && zone in zones)
    ensures p.Placed? ==> zone in zones && (zone, name) in gce.vms
    ensures zone in zones || zone == ""
    ensures zone != "" && cooldown != null ==> Preferred(old(cooldown.until), zones, clock(0), zone)
    ensures zones != [] && cooldown != null ==>
      var candidates := old(CandidatesOf(cooldown, zones, clock(0)));
      var k := Stockouts(gce.inserts, old(gce.insertCalls), |candidates|);
      cooldown.until == MarkAll(Pruned(old(cooldown.until), zones, clock(0)), candidates[..k], cooldown.ttl, clock, 1)
  {
    if |zones| == 0 { return NoZones, ""; }
    var candidates := zones;
    if cooldown != null {
      candidates := cooldown.ActiveZones(zones, clock(0));
      if |candidates| == 0 { candidates := zones; }
    }
    forall z | z in candidates
      ensures z in zones && (cooldown != null ==> Preferred(old(cooldown.until), zones, clock(0), z))
    {
      if cooldown != null { CandidatesArePreferred(old(cooldown.until), zones, clock(0), z); }
    }
    p, zone := TryZones(gce, candidates, cooldown, name, clock, 1);
    hide Active;
  }

  // ----- the records -----

  datatype ScratchState = Starting | Ready | Deleting | Deleted

  datatype Scratch = Scratch(id: string, buildId: string, obliviousId: string, machineClass: string, vmName: string,
                             internalIP: string, zone: string, state: ScratchState, created: int, updated: int,
                                 lastUsed: int)

  class Store {
    const script: nat -> CallOutcome
    var records: map<string, Scratch>
    var calls: nat

    constructor (script: nat -> CallOutcome)
      ensures this.script == script && records == map[] && calls == 0
    {
      this.script, records, calls := script, map[], 0;
    }

    method Insert(v: Scratch) returns (ok: bool)
      modifies this
      ensures calls == old(calls) + 1
      ensures ok <==> script(old(calls)).Works? && v.id !in old(records)
      ensures records == if v.id !in old(records) && Lands(script(old(calls))) then old(records)[v.id := v]
                         else old(records)
    {
      var o := script(calls);
      calls := calls + 1;
      if v.id in records { return false; }
      if Lands(o) { records := records[v.id := v]; }
      ok := o.Works?;
    }

    method Update(v: Scratch) returns (ok: bool)
      modifies this
      ensures calls == old(calls) + 1
      ensures ok <==> script(old(calls)).Works? && v.id in old(records)
      ensures records == if v.id in old(records) && Lands(script(old(calls))) then old(records)[v.id := v]
                         else old(records)
    {
      var o := script(calls);
      calls := calls + 1;
      if v.id !in records { return false; }
      if Lands(o) { records := records[v.id := v]; }
      ok := o.Works?;
    }

    method UpdateState(id: string, s: ScratchState, now: int) returns (ok: bool)
      modifies this
      ensures calls == old(calls) + 1
      ensures ok <==> script(old(calls)).Works? && id in old(records)
      ensures records == if id in old(records) && Lands(script(old(calls)))
                         then old(records)[id := old(records)[id].(state := s, updated := now)] else old(records)
    {
      var o := script(calls);
      calls := calls + 1;
      if id !in records { return false; }
      if Lands(o) { records := records[id := records[id].(state := s, updated := now)]; }
      ok := o.Works?;
    }
  }

  // ----- create and delete -----

  datatype Failure = InvalidArgument | Internal | DeadlineExceeded | NotFound
  datatype Result<T> = Ok(value: T) | Err(failure: Failure)

  /** Polls until the probe answers or the deadline comes after so many ticks. */
  method WaitHealthy(probe: nat -> bool, ticks: nat) returns (healthy: bool)
    ensures healthy <==> exists i: nat :: i <= ticks && probe(i)
  {
    if probe(0) { return true; }
    for i := 1 to ticks + 1
      invariant forall j: nat :: j < i ==> !probe(j)
    {
      if probe(i) { return true; }
    }
    return false;
  }

  /** selectClass: whether the machine class has a template. */
  predicate HasClass(machineClass: string, jumbo: bool) {
    machineClass == "standard" || (machineClass == "jumbo" && jumbo)
  }

  datatype Request = Request(buildId: string, machineClass: string)
  datatype Ids = Ids(id: string, obliviousId: string)

  /** The deployment's configuration, and what one call finds the clock and the probe say. */
  datatype World = World(zones: seq<string>, jumbo: bool, created: int, tried: nat -> int, provisioned: int, ready: int,
                         torn: int, probe: nat -> bool, ticks: nat)

  function VmName(id: string): string { "scratch-" + id }

  /** The teardown closure: the zone gates the VM's deletion, and errors are only logged. */
  method Cleanup(gce: Gce, store: Store, zone: string, id: string, now: int)
    modifies gce, store
    ensures gce.insertCalls == old(gce.insertCalls)
    ensures gce.vms == if zone != "" && Lands(gce.deletes(old(gce.deleteCalls)))
            then old(gce.vms) - {(zone, VmName(id))} else old(gce.vms)
    ensures store.calls == old(store.calls) + 1
    ensures store.records == if id in old(store.records) && Lands(store.script(old(store.calls)))
                             then old(store.records)[id := old(store.records)[id].(state := Deleted, updated := now)]
                                  else old(store.records)
  {
    if zone != "" {
      var _ := gce.DeleteInstance(zone, VmName(id));
    }
    var _ := store.UpdateState(id, Deleted, now);
  }

  /** Only the record of id may differ. */
  ghost predicate SameBut(a: map<string, Scratch>, b: map<string, Scratch>, id: string) {
    forall k :: k != id ==> (k in a <==> k in b) && (k in a ==> b[k] == a[k])
  }

  /** A VM that may have been added and may have been removed again. */
  lemma OneVm(before: set<Vm>, after: set<Vm>, zone: string, name: string, placed: bool, removed: bool)
    requires Named(before, name) == {}
    requires var between := if placed then before + {(zone, name)} else before;
             after == if removed then between - {(zone, name)} else between
    ensures Named(after, name) == if placed && !removed then {(zone, name)} else {}
    ensures after == before + Named(after, name)
  {
    NotNamed(before, zone, name);
  }

  lemma NotNamed(vms: set<Vm>, zone: string, name: string)
    requires Named(vms, name) == {}
    ensures (zone, name) !in vms
  {
    assert (zone, name) !in Named(vms, name);
  }

  /** After a failure no VM is left: no insertion left one, or its zone is known to the
      teardown and the deletion there takes effect. */
  ghost predicate NoneLeft(inserts: nat -> InsertOutcome, from: nat, candidates: seq<string>, deletion: CallOutcome) {
    Leaves(inserts, from, |candidates|) ==> candidates[Stockouts(inserts, from, |candidates|)] != "" && Lands(deletion)
  }

  /** The first candidate in stock, if any, creates the VM. */
  ghost predicate Creates(inserts: nat -> InsertOutcome, from: nat, candidates: seq<string>) {
    var k := Stockouts(inserts, from, |candidates|);
    k < |candidates| && inserts(from + k).Created?
  }

  lemma PlacedCreates(inserts: nat -> InsertOutcome, from: nat, candidates: seq<string>, p: Placement, zone: string)
    requires Decided(inserts, from, candidates, p, zone)
    ensures p.Placed? <==> Creates(inserts, from, candidates)
  {
  }

  /** n store calls starting at call `from` work. */
  ghost predicate CallsWork(script: nat -> CallOutcome, from: nat, n: nat) {
    forall i: nat :: from <= i < from + n ==> script(i).Works?
  }

  /** Some probe up to the deadline succeeds. */
  ghost predicate Healthy(w: World) {
    exists i: nat :: i <= w.ticks && w.probe(i)
  }

  /** It succeeds exactly when the class has a template, the record is new and inserted, the
      first zone in stock creates the VM, its address is recorded, it answers in time and it
      is marked ready; not answering is the one failure with an error of its own.
      No orphan VM. Success: exactly one VM of this name, in the recorded zone. Failure
      before any zone is tried: none. Failure after that: none exactly when NoneLeft says
      so; with zones from ParseScratchZones, that is whenever the teardown's deletion takes
      effect. The inserted record is Deleted if the teardown's last store call works. */
  method ScratchCreate(req: Request, ids: Ids, gce: Gce, store: Store, cooldown: ZoneCooldown?, w: World)
    returns (r: Result<Scratch>)
    requires Named(gce.vms, VmName(ids.id)) == {}
    modifies gce, store, cooldown
    ensures gce.vms == old(gce.vms) + Named(gce.vms, VmName(ids.id))
    ensures SameBut(old(store.records), store.records, ids.id)
    ensures var c, candidates := old(store.calls), old(CandidatesOf(cooldown, w.zones, w.tried(0)));
            var begun := ids.id !in old(store.records) && store.script(c).Works?
                         && Creates(gce.inserts, old(gce.insertCalls), candidates) && store.script(c + 1).Works?;
            match r
            case Ok(_) => HasClass(req.machineClass, w.jumbo) && begun && Healthy(w) && store.script(c + 2).Works?
            case Err(InvalidArgument) => !HasClass(req.machineClass, w.jumbo)
            case Err(DeadlineExceeded) => HasClass(req.machineClass, w.jumbo) && begun && !Healthy(w)
            case Err(e) => e == Internal && HasClass(req.machineClass, w.jumbo)
                           && !(begun && (!Healthy(w) || store.script(c + 2).Works?))
    ensures r.Ok? ==> store.calls == old(store.calls) + 3 && gce.deleteCalls == old(gce.deleteCalls)
    ensures r.Ok? ==>
      && r.value == Scratch(ids.id, req.buildId, ids.obliviousId, req.machineClass, VmName(ids.id), r.value.internalIP,
                            r.value.zone, Ready, w.created, w.provisioned, w.provisioned)
      && Named(gce.vms, VmName(ids.id)) == {(r.value.zone, VmName(ids.id))} && r.value.zone in w.zones
      && Decided(gce.inserts, old(gce.insertCalls), old(CandidatesOf(cooldown, w.zones, w.tried(0))),
                 Placed(r.value.internalIP), r.value.zone)
      && ids.id !in old(store.records) && ids.id in store.records
      && store.records[ids.id].(updated := r.value.updated) == r.value
    ensures r.Err? ==>
      if HasClass(req.machineClass, w.jumbo) && ids.id !in old(store.records) && store.script(old(store.calls)).Works?
          && w.zones != [] then
        Named(gce.vms, VmName(ids.id)) == {} <==>
          NoneLeft(gce.inserts, old(gce.insertCalls), old(CandidatesOf(cooldown, w.zones, w.tried(0))),
                   gce.deletes(old(gce.deleteCalls)))
      else
        Named(gce.vms, VmName(ids.id)) == {}
    ensures r.Err? && "" !in w.zones && Lands(gce.deletes(old(gce.deleteCalls))) ==>
            Named(gce.vms, VmName(ids.id)) == {}
    ensures r.Err? && ids.id !in old(store.records) && ids.id in store.records && store.calls > 0
            && store.script(store.calls - 1).Works? ==>
      store.records[ids.id].state == Deleted
    ensures r.Err? && ids.id in old(store.records) ==> gce.vms == old(gce.vms) && store.records == old(store.records)
    ensures !HasClass(req.machineClass, w.jumbo) ==> r == Err(InvalidArgument) && gce.vms == old(gce.vms)
                                                     && store.records == old(store.records)
  {
    if !HasClass(req.machineClass, w.jumbo) { return Err(InvalidArgument); }
    hide Named, VmName, HasClass, Decided, CandidatesOf, NoneLeft, Creates, Healthy;
    var scratch := Scratch(ids.id, req.buildId, ids.obliviousId, req.machineClass, VmName(ids.id), "", "", Starting,
                           w.created, w.created, 0);
    var ok := store.Insert(scratch);
    if !ok { return Err(Internal); }
    r := Provision(scratch, gce, store, cooldown, w);
  }

  /** Everything past the insertion of the record, with the teardown on failure. */
  method Provision(scratch: Scratch, gce: Gce, store: Store, cooldown: ZoneCooldown?, w: World)
    returns (r: Result<Scratch>)
    requires scratch.vmName == VmName(scratch.id) && Named(gce.vms, scratch.vmName) == {}
    requires scratch.id in store.records
    modifies gce, store, cooldown
    ensures gce.vms == old(gce.vms) + Named(gce.vms, scratch.vmName)
    ensures SameBut(old(store.records), store.records, scratch.id)
    ensures scratch.id in store.records && store.calls > 0
    ensures var begun := Creates(gce.inserts, old(gce.insertCalls), old(CandidatesOf(cooldown, w.zones, w.tried(0))))
                         && store.script(old(store.calls)).Works?;
            match r
            case Ok(_) => begun && Healthy(w) && store.script(old(store.calls) + 1).Works?
            case Err(DeadlineExceeded) => begun && !Healthy(w)
            case Err(e) => e == Internal && !(begun && (!Healthy(w) || store.script(old(store.calls) + 1).Works?))
    ensures r.Ok? ==> store.calls == old(store.calls) + 2 && gce.deleteCalls == old(gce.deleteCalls)
    ensures r.Ok? ==>
      && r.value == scratch.(internalIP := r.value.internalIP, zone := r.value.zone, state := Ready,
                             updated := w.provisioned, lastUsed := w.provisioned)
      && Named(gce.vms, scratch.vmName) == {(r.value.zone, scratch.vmName)} && r.value.zone in w.zones
      && Decided(gce.inserts, old(gce.insertCalls), old(CandidatesOf(cooldown, w.zones, w.tried(0))),
                 Placed(r.value.internalIP), r.value.zone)
      && store.records[scratch.id].(updated := r.value.updated) == r.value
    ensures r.Err? ==>
      if w.zones == [] then Named(gce.vms, scratch.vmName) == {}
      else
        Named(gce.vms, scratch.vmName) == {} <==>
          NoneLeft(gce.inserts, old(gce.insertCalls), old(CandidatesOf(cooldown, w.zones, w.tried(0))),
                   gce.deletes(old(gce.deleteCalls)))
    ensures r.Err? && "" !in w.zones && Lands(gce.deletes(old(gce.deleteCalls))) ==>
            Named(gce.vms, scratch.vmName) == {}
    ensures r.Err? && store.script(store.calls - 1).Works? ==> store.records[scratch.id].state == Deleted
  {
    ghost var candidates := CandidatesOf(cooldown, w.zones, w.tried(0));
    assert w.zones == [] ==> candidates == [];
    hide Named, VmName, CandidatesOf, Healthy;
    var p, zone := InsertWithFallthrough(gce, w.zones, cooldown, scratch.vmName, w.tried);
    ghost var placed := gce.vms != old(gce.vms);
    if w.zones != [] { PlacedCreates(gce.inserts, old(gce.insertCalls), candidates, p, zone); }
    NotNamed(old(gce.vms), zone, scratch.vmName);
    r := Err(Internal);
    if p.Placed? {
      r := BringUp(scratch.(zone := zone, internalIP := p.ip, updated := w.provisioned, lastUsed := w.provisioned),
                   store, w);
    }
    if r.Err? { Cleanup(gce, store, zone, scratch.id, w.torn); }
    OneVm(old(gce.vms), gce.vms, zone, scratch.vmName, placed, r.Err? && zone != ""
          && Lands(gce.deletes(old(gce.deleteCalls))));
  }

  /** The steps after the VM is there: record its address, wait for it, mark it ready. */
  method BringUp(scratch: Scratch, store: Store, w: World) returns (r: Result<Scratch>)
    requires scratch.id in store.records
    modifies store
    ensures store.records.Keys == old(store.records.Keys) && SameBut(old(store.records), store.records, scratch.id)
    ensures match r
            case Ok(v) =>
              && store.script(old(store.calls)).Works? && Healthy(w) && store.script(old(store.calls) + 1).Works?
              && v == scratch.(state := Ready) && store.calls == old(store.calls) + 2
            case Err(DeadlineExceeded) => store.script(old(store.calls)).Works? && !Healthy(w)
            case Err(e) =>
              && e == Internal
              && !(store.script(old(store.calls)).Works? && (!Healthy(w) || store.script(old(store.calls) + 1).Works?))
    ensures r.Ok? ==> store.records[scratch.id].(updated := r.value.updated) == r.value
    ensures store.calls > old(store.calls)
  {
    var ok := store.Update(scratch);
    if !ok { return Err(Internal); }
    ok := WaitHealthy(w.probe, w.ticks);
    if !ok { return Err(DeadlineExceeded); }
    ok := store.UpdateState(scratch.id, Ready, w.ready);
    if !ok { return Err(Internal); }
    return Ok(scratch.(state := Ready));
  }

  /** ScratchDelete: it answers success exactly when the record is there and both of its
      updates work. An error deleting the VM is only logged, so Deleted is recorded with the
      VM still there exactly when that deletion has no effect. */
  method ScratchDelete(id: string, gce: Gce, store: Store, clock: nat -> int) returns (r: Result<ScratchState>)
    modifies gce, store
    ensures id !in old(store.records) ==> r == Err(NotFound) && gce.vms == old(gce.vms)
                                          && store.records == old(store.records)
    ensures r.Ok? <==> id in old(store.records) && store.script(old(store.calls)).Works?
                       && store.script(old(store.calls) + 1).Works?
    ensures r.Ok? ==> r.value == Deleted && id in old(store.records) && id in store.records
                      && store.records[id].state == Deleted
    ensures r.Err? && id in old(store.records) ==> r == Err(Internal)
    ensures gce.vms == if id in old(store.records) && store.script(old(store.calls)).Works?
                          && old(store.records)[id].vmName != "" && Lands(gce.deletes(old(gce.deleteCalls)))
                       then old(gce.vms) - {(old(store.records)[id].zone, old(store.records)[id].vmName)}
                       else old(gce.vms)
    ensures SameBut(old(store.records), store.records, id)
  {
    if id !in store.records { return Err(NotFound); }
    var s := store.records[id];
    var ok := store.UpdateState(id, Deleting, clock(0));
    if !ok { return Err(Internal); }
    if s.vmName != "" {
      var _ := gce.DeleteInstance(s.zone, s.vmName);
    }
    ok := store.UpdateState(id, Deleted, clock(1));
    if !ok { return Err(Internal); }
    return Ok(Deleted);
  }

  /** Created and then deleted: done exactly when the creation succeeds and the deletion's
      two updates work, and then nothing is left exactly when the VM's deletion took effect. */
  method CreateThenDelete(req: Request, ids: Ids, gce: Gce, store: Store, cooldown: ZoneCooldown?, w: World)
    returns (done: bool)
    requires Named(gce.vms, VmName(ids.id)) == {}
    modifies gce, store, cooldown
    ensures done <==>
      && HasClass(req.machineClass, w.jumbo) && ids.id !in old(store.records)
      && Creates(gce.inserts, old(gce.insertCalls), old(CandidatesOf(cooldown, w.zones, w.tried(0)))) && Healthy(w)
      && CallsWork(store.script, old(store.calls), 5)
    ensures done ==> (gce.vms == old(gce.vms) <==> Lands(gce.deletes(old(gce.deleteCalls))))
    ensures done ==> ids.id in store.records && store.records[ids.id].state == Deleted
    ensures SameBut(old(store.records), store.records, ids.id)
  {
    hide Creates, Healthy, CandidatesOf, HasClass, Named, Decided, NoneLeft;
    ghost var c := store.calls;
    var r := ScratchCreate(req, ids, gce, store, cooldown, w);
    if r.Err? { return false; }
    NotNamed(old(gce.vms), r.value.zone, VmName(ids.id));
    var d := ScratchDelete(ids.id, gce, store, w.tried);
    return d.Ok?;
  }
}
