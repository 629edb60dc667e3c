/** The pacing of calls to the registry provider (backend/src/bulk/provider-rate-limit.service.ts:5-16). */
module ProviderPacing {
  import opened Sequences

  function Max(a: int, b: int): int { if a < b then b else a }

  /**
   Milliseconds between turns at a configured number of requests a second: the most that
   allows the rate, never less than 50, and a second at one request a second or fewer.
   */
  function MinInterval(rps: real): (ms: int)
    ensures 50 <= ms <= 1000
    ensures 1.0 <= rps <= 20.0 ==> ms as real * rps <= 1000.0 && (ms as real + 1.0) * rps > 1000.0
    ensures rps <= 1.0 ==> ms == 1000
    ensures rps >= 20.0 ==> ms == 50
  {
    var rate := if rps > 1.0 then rps else 1.0;
    var ms := (1000.0 / rate).Floor;
    IntervalBounds(rate, ms);
    Max(50, ms)
  }

  lemma IntervalBounds(rate: real, ms: int)
    requires rate >= 1.0 && ms == (1000.0 / rate).Floor
    ensures ms <= 1000 && ms as real * rate <= 1000.0 && (ms as real + 1.0) * rate > 1000.0
    ensures rate <= 20.0 ==> ms >= 50
    ensures rate >= 20.0 ==> ms <= 50
    ensures rate == 1.0 ==> ms == 1000
  {
    var q := 1000.0 / rate;
    QuotientBounds(rate, q);
    RealTimesGrows(q, ms as real, rate);
    FloorIsLargest(rate, q, ms);
  }

  lemma FloorIsLargest(rate: real, q: real, ms: int)
    requires rate >= 1.0 && q * rate == 1000.0 && ms == q.Floor
    ensures (ms as real + 1.0) * rate > 1000.0
  {
    RealTimesGrows(q, ms as real + 1.0, rate);
  }

  lemma QuotientBounds(rate: real, q: real)
    requires rate >= 1.0 && q == 1000.0 / rate
    ensures q * rate == 1000.0 && q <= 1000.0
    ensures rate <= 20.0 ==> q >= 50.0
    ensures rate >= 20.0 ==> q <= 50.0
  {
    assert q * rate == 1000.0;
    RealTimesGrows(q, 50.0, rate);
    RealTimesGrows(50.0, q, rate);
    RealTimesGrows(1000.0, q, rate);
  }

  lemma RealTimesGrows(a: real, b: real, rate: real)
    requires rate > 0.0
    ensures a < b ==> a * rate < b * rate
  {
  }

  /** A call: when it is made and the rate configured at that moment. */
  datatype Call = Call(now: int, rps: real)

  class ProviderRateLimit {
    var nextAllowedAt: int

    constructor ()
      ensures nextAllowedAt == 0
    {
      nextAllowedAt := 0;
    }

    /** `waitTurn`: returns the moment the caller goes on. */
    method WaitTurn(call: Call) returns (turnAt: int)
      modifies this
      ensures turnAt == TurnAt(old(nextAllowedAt), call)
      ensures nextAllowedAt == NextAllowed(old(nextAllowedAt), call)
    {
      var minIntervalMs := MinInterval(call.rps);
      var waitMs := Max(0, nextAllowedAt - call.now);
      nextAllowedAt := Max(nextAllowedAt, call.now) + minIntervalMs;
      turnAt := call.now;
      if waitMs > 0 {
        turnAt := call.now + waitMs;
      }
    }
  }

  function TurnAt(nextAllowedAt: int, call: Call): int { Max(nextAllowedAt, call.now) }

  function NextAllowed(nextAllowedAt: int, call: Call): int { TurnAt(nextAllowedAt, call) + MinInterval(call.rps) }

  /** `nextAllowedAt` after a run of calls. */
  function AllowedAfter(calls: seq<Call>): int {
    if calls == [] then 0 else NextAllowed(AllowedAfter(calls[..|calls| - 1]), calls[|calls| - 1])
  }

  /** The turns of a run of calls, in the order the calls came in. */
  function Turns(calls: seq<Call>): (turns: seq<int>)
    ensures |turns| == |calls|
  {
    if calls == [] then [] else
      Turns(calls[..|calls| - 1]) + [TurnAt(AllowedAfter(calls[..|calls| - 1]), calls[|calls| - 1])]
  }

  ghost predicate Spaced(turns: seq<int>, gap: int) {
    forall i, j :: 0 <= i < j < |turns| ==> turns[j] - turns[i] >= gap
  }

  ghost predicate SlowerThan(calls: seq<Call>, gap: int) {
    forall call :: call in calls ==> MinInterval(call.rps) >= gap
  }

  /**
   Turns lie at least the configured interval apart, on the clock the service reads, forwards
   or backwards, and however the calls interleave.
   */
  lemma {:induction false} TurnsAreSpaced(calls: seq<Call>, gap: int)
    requires gap >= 0 && SlowerThan(calls, gap)
    ensures Spaced(Turns(calls), gap)
    ensures forall turn :: turn in Turns(calls) ==> turn + gap <= AllowedAfter(calls)
  {
    hide MinInterval;
    if calls != [] {
      TurnsAreSpaced(calls[..|calls| - 1], gap);
      assert calls[|calls| - 1] in calls;
    }
  }

  /** One turn after the other: the later of the call and the end of its predecessor's interval. */
  lemma NoNeedlessWait(calls: seq<Call>)
    requires |calls| >= 2
    ensures Turns(calls)[|calls| - 1]
         == Max(Turns(calls)[|calls| - 2] + MinInterval(calls[|calls| - 2].rps), calls[|calls| - 1].now)
  {
    var before := calls[..|calls| - 1];
    assert before[|before| - 1] == calls[|calls| - 2];
    assert Turns(calls)[..|before|] == Turns(before);
    assert Turns(calls)[|before| - 1] == Turns(before)[|before| - 1];
  }

  /** The intervals reserved by the calls from the `k`-th on, up to the last call's turn. */
  function ReservedSince(calls: seq<Call>, k: nat): int
    requires k < |calls|
  {
    if k == |calls| - 1 then 0 else
      ReservedSince(calls[..|calls| - 1], k) + MinInterval(calls[|calls| - 2].rps)
  }

  /** Waiting from the `k`-th call on: when it was made, and the intervals reserved since. */
  function Demand(calls: seq<Call>, k: nat): int
    requires k < |calls|
  {
    calls[k].now + ReservedSince(calls, k)
  }

  /**
   A turn comes neither sooner nor later than the calls before it demand: it is the latest
   demand of all calls so far, counting from the service's start at 0.
   */
  lemma {:induction false} TurnIsTheLatestDemand(calls: seq<Call>)
    requires calls != []
    ensures forall k: nat :: k < |calls| ==> Demand(calls, k) <= Turns(calls)[|calls| - 1]
    ensures ReservedSince(calls, 0) <= Turns(calls)[|calls| - 1]
    ensures Turns(calls)[|calls| - 1] == ReservedSince(calls, 0)
         || exists k: nat :: k < |calls| && Turns(calls)[|calls| - 1] == Demand(calls, k)
  {
    hide MinInterval, Turns;
    var n := |calls| - 1;
    if n == 0 {
      FirstTurn(calls);
      assert Demand(calls, 0) == calls[0].now;
    } else {
      var before := calls[..n];
      TurnIsTheLatestDemand(before);
      NoNeedlessWait(calls);
      EarlierTurn(calls);
      forall k: nat | k < n ensures Demand(calls, k) == Demand(before, k) + MinInterval(calls[n - 1].rps) {
        assert before[k] == calls[k];
      }
      assert Demand(calls, n) == calls[n].now;
    }
  }

  lemma FirstTurn(calls: seq<Call>)
    requires |calls| == 1
    ensures Turns(calls)[0] == Max(0, calls[0].now)
  {
    assert calls[..0] == [];
  }

  lemma EarlierTurn(calls: seq<Call>)
    requires |calls| >= 2
    ensures Turns(calls)[|calls| - 2] == Turns(calls[..|calls| - 1])[|calls| - 2]
  {
  }

  function InSpan(from: int, width: nat): int -> bool {
    (turn: int) => from <= turn <= from + width
  }

  lemma {:induction false} SpacedFilter(p: int -> bool, turns: seq<int>, gap: int)
    requires Spaced(turns, gap)
    ensures Spaced(Filter(p, turns), gap)
  {
    if turns != [] {
      SpacedFilter(p, turns[1..], gap);
      forall turn | turn in Filter(p, turns[1..]) ensures turn - turns[0] >= gap {
        FilterMember(p, turns[1..], turn);
        var k :| 0 <= k < |turns| - 1 && turns[1..][k] == turn;
        assert turns[k + 1] - turns[0] >= gap;
      }
      var rest := Filter(p, turns[1..]);
      forall i | 0 <= i < |rest| ensures rest[i] - turns[0] >= gap { assert rest[i] in rest; }
    }
  }

  lemma {:induction false} SpacedSpan(turns: seq<int>, gap: int)
    requires turns != [] && Spaced(turns, gap)
    ensures turns[|turns| - 1] - turns[0] >= (|turns| - 1) * gap
  {
    if |turns| > 1 {
      var before := turns[..|turns| - 1];
      SpacedSpan(before, gap);
      assert (|turns| - 2) * gap + gap == (|turns| - 1) * gap;
    }
  }

  /** Any window of `width` milliseconds holds at most `width / gap + 1` turns. */
  lemma WindowHoldsFewTurns(calls: seq<Call>, gap: int, from: int, width: nat)
    requires gap > 0 && SlowerThan(calls, gap)
    ensures |Filter(InSpan(from, width), Turns(calls))| <= width / gap + 1
  {
    hide Filter, Turns, SlowerThan;
    TurnsAreSpaced(calls, gap);
    var inside := Filter(InSpan(from, width), Turns(calls));
    SpacedFilter(InSpan(from, width), Turns(calls), gap);
    FilterMembers(InSpan(from, width), Turns(calls));
    if inside != [] {
      SpacedSpan(inside, gap);
      assert inside[0] in inside && inside[|inside| - 1] in inside;
      FitsIn(|inside| - 1, gap, width);
    }
  }

  lemma FitsIn(n: int, gap: int, width: int)
    requires gap > 0 && n * gap <= width
    ensures n <= width / gap
  {
    TimesGrows(width / gap + 1, n, gap);
  }

  lemma TimesGrows(a: int, b: int, gap: int)
    requires gap > 0
    ensures a <= b ==> a * gap <= b * gap
  {
  }
}
