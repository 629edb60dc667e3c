/**
 Per-tenant concurrency of bulk items: item runs interleave at every `await`, and take and
 give back a slot of their tenant (backend/src/bulk/bulk.service.ts:122-162, 204-218).
 */
module TenantSlots {
  import opened Wrappers

  /** Where an item run stands: before its slot, at one of the awaits inside the `try`/`catch`, or past `finally`. */
  datatype Phase = Waiting | Starting | InTurn | LookingUp | SavingResult | SavingFailure | Ended

  datatype ItemRun = ItemRun(tenantId: string, phase: Phase)

  datatype State = State(tenantInFlight: map<string, nat>, runs: map<nat, ItemRun>)

  /** An item run arrives, looks for a slot, or has its awaited call come back, fulfilled or rejected. */
  datatype Step = Arrive(id: nat, tenantId: string) | Poll(id: nat) | Resume(id: nat, fulfilled: bool)

  function InFlight(counters: map<string, nat>, tenantId: string): nat {
    if tenantId in counters then counters[tenantId] else 0
  }

  function Taken(counters: map<string, nat>, tenantId: string): map<string, nat> {
    counters[tenantId := InFlight(counters, tenantId) + 1]
  }

  function Released(counters: map<string, nat>, tenantId: string): map<string, nat> {
    if InFlight(counters, tenantId) <= 1 then counters - {tenantId}
    else counters[tenantId := counters[tenantId] - 1]
  }

  /** The service's own map, updated as the runs do. */
  class BulkService {
    var tenantInFlight: map<string, nat>
    const tenantConcurrencyLimit: nat

    constructor (configured: int)
      ensures tenantInFlight == map[] && tenantConcurrencyLimit >= 1
      ensures configured >= 1 ==> tenantConcurrencyLimit == configured
    {
      tenantInFlight := map[];
      tenantConcurrencyLimit := if configured > 1 then configured else 1;
    }

    /** One turn of the waiting loop of `waitForTenantSlot`. */
    method TryTakeSlot(tenantId: string) returns (taken: bool)
      modifies this
      ensures taken <==> InFlight(old(tenantInFlight), tenantId) < tenantConcurrencyLimit
      ensures tenantInFlight == if taken then Taken(old(tenantInFlight), tenantId) else old(tenantInFlight)
    {
      var current := if tenantId in tenantInFlight then tenantInFlight[tenantId] else 0;
      if current >= tenantConcurrencyLimit {
        return false;
      }
      tenantInFlight := tenantInFlight[tenantId := current + 1];
      return true;
    }

    method ReleaseTenantSlot(tenantId: string)
      modifies this
      ensures tenantInFlight == Released(old(tenantInFlight), tenantId)
    {
      var current := if tenantId in tenantInFlight then tenantInFlight[tenantId] else 0;
      if current <= 1 {
        tenantInFlight := tenantInFlight - {tenantId};
        return;
      }
      tenantInFlight := tenantInFlight[tenantId := current - 1];
    }
  }

  predicate Holding(phase: Phase) {
    !phase.Waiting? && !phase.Ended?
  }

  /** Where `processItem` goes on when the call it awaits comes back. */
  function AfterAwait(phase: Phase, fulfilled: bool): Phase
    requires Holding(phase)
  {
    match phase
    case Starting => if fulfilled then InTurn else SavingFailure
    case InTurn => if fulfilled then LookingUp else SavingFailure
    case LookingUp => if fulfilled then SavingResult else SavingFailure
    case SavingResult => if fulfilled then Ended else SavingFailure
    case SavingFailure => Ended
  }

  predicate Enabled(s: State, step: Step) {
    match step
    case Arrive(id, _) => id !in s.runs
    case Poll(id) => id in s.runs && s.runs[id].phase.Waiting?
    case Resume(id, _) => id in s.runs && Holding(s.runs[id].phase)
  }

  function Exec(s: State, step: Step, limit: nat): State
    requires Enabled(s, step)
  {
    match step
    case Arrive(id, tenantId) => s.(runs := s.runs[id := ItemRun(tenantId, Waiting)])
    case Poll(id) =>
      var run := s.runs[id];
      if InFlight(s.tenantInFlight, run.tenantId) >= limit then s
      else State(Taken(s.tenantInFlight, run.tenantId), s.runs[id := run.(phase := Starting)])
    case Resume(id, fulfilled) =>
      var run := s.runs[id];
      var next := AfterAwait(run.phase, fulfilled);
      State(if next.Ended? then Released(s.tenantInFlight, run.tenantId) else s.tenantInFlight,
            s.runs[id := run.(phase := next)])
  }

  /** The state an interleaving leads to, if every step of it can be taken. */
  function After(steps: seq<Step>, limit: nat): Option<State> {
    if steps == [] then Some(State(map[], map[])) else
      match After(steps[..|steps| - 1], limit)
      case None => None
      case Some(s) =>
        if Enabled(s, steps[|steps| - 1]) then Some(Exec(s, steps[|steps| - 1], limit)) else None
  }

  ghost function Holders(runs: map<nat, ItemRun>, tenantId: string): set<nat> {
    set id | id in runs && runs[id].tenantId == tenantId && Holding(runs[id].phase)
  }

  /** Each counter is the number of runs that hold a slot of the tenant, and within the limit. */
  ghost predicate Inv(s: State, limit: nat) {
    && (forall tenantId :: InFlight(s.tenantInFlight, tenantId) == |Holders(s.runs, tenantId)| <= limit)
    && (forall tenantId :: tenantId in s.tenantInFlight ==> s.tenantInFlight[tenantId] > 0)
  }

  /** Setting one run moves only that run in or out of its tenant's holders. */
  lemma HoldersAfter(runs: map<nat, ItemRun>, id: nat, run: ItemRun, tenantId: string)
    requires id in runs ==> runs[id].tenantId == run.tenantId
    ensures Holders(runs[id := run], tenantId) ==
            if run.tenantId == tenantId && Holding(run.phase) then Holders(runs, tenantId) + {id}
            else Holders(runs, tenantId) - {id}
    ensures run.tenantId != tenantId ==> id !in Holders(runs, tenantId)
  {
  }

  lemma InvKept(s: State, step: Step, limit: nat)
    requires Inv(s, limit) && Enabled(s, step)
    ensures Inv(Exec(s, step, limit), limit)
  {
    hide Holders;
    var s' := Exec(s, step, limit);
    var id := step.id;
    if id in s'.runs {
      forall tenantId ensures InFlight(s'.tenantInFlight, tenantId) == |Holders(s'.runs, tenantId)| <= limit {
        assert InFlight(s.tenantInFlight, tenantId) == |Holders(s.runs, tenantId)|;
        HoldersAfter(s.runs, id, s'.runs[id], tenantId);
        HoldsNow(s.runs, id, tenantId);
        assert s'.runs == s.runs[id := s'.runs[id]];
      }
    }
  }

  lemma HoldsNow(runs: map<nat, ItemRun>, id: nat, tenantId: string)
    ensures id in Holders(runs, tenantId) <==> id in runs && runs[id].tenantId == tenantId && Holding(runs[id].phase)
  {
  }

  /**
   In every reachable state, whatever failed on the way, a tenant's counter is its number of
   slot holders, at most the limit.
   */
  lemma {:induction false} CountersAreHolders(steps: seq<Step>, limit: nat, s: State)
    requires After(steps, limit) == Some(s)
    ensures Inv(s, limit)
  {
    if steps == [] {
      forall tenantId ensures Holders(s.runs, tenantId) == {} {}
    } else {
      var before := After(steps[..|steps| - 1], limit).value;
      CountersAreHolders(steps[..|steps| - 1], limit, before);
      InvKept(before, steps[|steps| - 1], limit);
    }
  }

  /** No slot leaks: once no run holds one, the map is empty again. */
  lemma NoLeak(steps: seq<Step>, limit: nat, s: State)
    requires After(steps, limit) == Some(s)
    ensures (forall id :: id in s.runs ==> !Holding(s.runs[id].phase)) <==> s.tenantInFlight == map[]
  {
    CountersAreHolders(steps, limit, s);
    if forall id :: id in s.runs ==> !Holding(s.runs[id].phase) {
      forall tenantId ensures InFlight(s.tenantInFlight, tenantId) == 0 {
        assert Holders(s.runs, tenantId) == {};
        assert InFlight(s.tenantInFlight, tenantId) == |Holders(s.runs, tenantId)|;
      }
      NothingInFlight(s.tenantInFlight);
    } else {
      var id :| id in s.runs && Holding(s.runs[id].phase);
      assert id in Holders(s.runs, s.runs[id].tenantId);
      assert InFlight(s.tenantInFlight, s.runs[id].tenantId) == |Holders(s.runs, s.runs[id].tenantId)| > 0;
    }
  }

  lemma NothingInFlight(counters: map<string, nat>)
    requires forall tenantId :: InFlight(counters, tenantId) == 0
    requires forall tenantId :: tenantId in counters ==> counters[tenantId] > 0
    ensures counters == map[]
  {
    forall tenantId ensures tenantId !in counters {
      assert InFlight(counters, tenantId) == 0;
    }
  }

  /** How far a run still is from its end. */
  function Remaining(phase: Phase): nat {
    match phase
    case Waiting => 6 case Starting => 5 case InTurn => 4 case LookingUp => 3 case SavingResult => 2
    case SavingFailure => 1 case Ended => 0
  }

  /** Whether the step brings the run closer to its end and leaves every other run where it was. */
  ghost predicate Advances(s: State, step: Step, limit: nat, id: nat)
    requires id in s.runs && Enabled(s, step)
  {
    var s' := Exec(s, step, limit);
    && id in s'.runs && Remaining(s'.runs[id].phase) < Remaining(s.runs[id].phase)
    && forall other :: other in s.runs && other != id ==> other in s'.runs && s'.runs[other] == s.runs[other]
  }

  /**
   A run that has not ended can always be brought forward, by a step of its own or, when it
   waits for a slot, by one of a run of its tenant that holds one: no interleaving is stuck.
   */
  lemma NeverStuck(steps: seq<Step>, limit: nat, s: State, id: nat) returns (step: Step)
    requires After(steps, limit) == Some(s) && limit >= 1 && id in s.runs && !s.runs[id].phase.Ended?
    ensures Enabled(s, step) && step.id in s.runs && s.runs[step.id].tenantId == s.runs[id].tenantId
    ensures Advances(s, step, limit, step.id) && !s.runs[step.id].phase.Ended?
    ensures step.id == id || (s.runs[id].phase.Waiting? && InFlight(s.tenantInFlight, s.runs[id].tenantId) == limit)
  {
    CountersAreHolders(steps, limit, s);
    var tenantId := s.runs[id].tenantId;
    assert InFlight(s.tenantInFlight, tenantId) == |Holders(s.runs, tenantId)| <= limit;
    if Holding(s.runs[id].phase) {
      step := Resume(id, true);
    } else if InFlight(s.tenantInFlight, tenantId) < limit {
      step := Poll(id);
    } else {
      assert Holders(s.runs, tenantId) != {};
      var holder :| holder in Holders(s.runs, tenantId);
      step := Resume(holder, true);
    }
  }
}
