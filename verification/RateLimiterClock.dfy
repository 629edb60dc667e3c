/**
 For which clock readings the sliding-window limiter keeps its limit, whatever calls are
 made at them (backend/src/auth/auth.service.ts:67-76).
 */
module RateLimiterClock {
  import opened Sequences
  import opened RateLimiter

  function Repeat(reading: int, times: nat): seq<int> {
    seq(times, _ => reading)
  }

  /** A pattern of calls: `counts[i]` of them at the `i`-th reading. */
  function Pattern(readings: seq<int>, counts: seq<nat>): seq<int>
    requires |counts| == |readings|
  {
    if readings == [] then [] else
      var n := |readings| - 1;
      Pattern(readings[..n], counts[..n]) + Repeat(readings[n], counts[n])
  }

  /** Every closed window holds at most `max` accepted calls. */
  ghost predicate LimitHolds(calls: seq<int>, max: nat, windowMs: nat) {
    forall from :: |Filter(InWindow(from, windowMs), Accepted(calls, max, windowMs))| <= max
  }

  ghost predicate PatternObeys(readings: seq<int>, counts: seq<nat>, max: nat, windowMs: nat) {
    |counts| == |readings| ==> LimitHolds(Pattern(readings, counts), max, windowMs)
  }

  /** The clock leaves the window after the `i`-th reading, and then comes near that reading again. */
  ghost predicate Reenters(readings: seq<int>, windowMs: nat, i: nat, j: nat, k: nat) {
    i < j < k < |readings| && readings[j] - readings[i] > windowMs && Near(readings[k], windowMs)(readings[i])
  }

  // --- Clocks that do not reenter ---

  /** The reading a call of the pattern is made at. */
  ghost function Origin(readings: seq<int>, counts: seq<nat>, c: nat): (i: nat)
    requires |counts| == |readings| && c < |Pattern(readings, counts)|
    ensures i < |readings| && Pattern(readings, counts)[c] == readings[i]
  {
    var n := |readings| - 1;
    if c < |Pattern(readings[..n], counts[..n])| then Origin(readings[..n], counts[..n], c) else n
  }

  lemma {:induction false} OriginsInOrder(readings: seq<int>, counts: seq<nat>, c: nat, d: nat)
    requires |counts| == |readings| && c <= d < |Pattern(readings, counts)|
    ensures Origin(readings, counts, c) <= Origin(readings, counts, d)
  {
    var n := |readings| - 1;
    if d < |Pattern(readings[..n], counts[..n])| {
      OriginsInOrder(readings[..n], counts[..n], c, d);
    }
  }

  lemma PatternNeverReenters(readings: seq<int>, counts: seq<nat>, max: nat, windowMs: nat)
    requires |counts| == |readings| && forall i: nat, j: nat, k: nat :: !Reenters(readings, windowMs, i, j, k)
    ensures NeverReenters(Pattern(readings, counts), max, windowMs)
  {
    hide Pattern, Origin, AcceptedAt;
    var calls := Pattern(readings, counts);
    forall c, d, e | 0 <= c < d < e < |calls| && calls[d] - calls[c] > windowMs
      ensures !Near(calls[e], windowMs)(calls[c])
    {
      OriginsInOrder(readings, counts, c, d);
      OriginsInOrder(readings, counts, d, e);
      assert !Reenters(readings, windowMs, Origin(readings, counts, c), Origin(readings, counts, d),
                       Origin(readings, counts, e));
    }
  }

  // --- Clocks that do ---

  /** One reading is used `max` times, two later ones once. */
  function Breaking(n: nat, max: nat, i: nat, j: nat, k: nat): seq<nat> {
    seq(n, m => if m == i then max else if m == j || m == k then 1 else 0)
  }

  lemma {:induction false} BreakingPattern(readings: seq<int>, n: nat, max: nat, i: nat, j: nat, k: nat)
    requires n <= |readings| && i < j < k
    ensures Pattern(readings[..n], Breaking(n, max, i, j, k)) ==
            (if i < n then Repeat(readings[i], max) else []) + (if j < n then [readings[j]] else []) +
            (if k < n then [readings[k]] else [])
  {
    if n > 0 {
      BreakingPattern(readings, n - 1, max, i, j, k);
      assert readings[..n][..n - 1] == readings[..n - 1];
      assert Breaking(n, max, i, j, k)[..n - 1] == Breaking(n - 1, max, i, j, k);
    }
  }

  lemma {:induction false} RepeatsPass(t: int, times: nat, max: nat, windowMs: nat)
    requires times <= max
    ensures Bucket(Repeat(t, times), max, windowMs) == Accepted(Repeat(t, times), max, windowMs) == Repeat(t, times)
  {
    hide Filter;
    if times > 0 {
      RepeatsPass(t, times - 1, max, windowMs);
      var before := Repeat(t, times - 1);
      assert Repeat(t, times)[..times - 1] == before && Repeat(t, times) == before + [t];
      FilterAll(Recent(t, windowMs), before);
    }
  }

  /** One more call, given the bucket and the record so far. */
  lemma OneMoreCall(calls: seq<int>, now: int, max: nat, windowMs: nat)
    ensures var bucket := Bucket(calls, max, windowMs);
            Bucket(calls + [now], max, windowMs) == NextBucket(bucket, now, max, windowMs)
            && Accepted(calls + [now], max, windowMs) ==
               Accepted(calls, max, windowMs) + if Passes(bucket, now, max, windowMs) then [now] else []
  {
    hide Passes, NextBucket;
    assert (calls + [now])[..|calls|] == calls;
  }

  lemma BreakingIsAccepted(t: int, u: int, v: int, max: nat, windowMs: nat)
    requires max >= 2 && u - t > windowMs
    ensures Accepted(Repeat(t, max) + [u] + [v], max, windowMs) == Repeat(t, max) + [u] + [v]
  {
    hide Filter, Repeat, Bucket, Accepted;
    RepeatsPass(t, max, max, windowMs);
    OneMoreCall(Repeat(t, max), u, max, windowMs);
    RepeatsAreOld(t, u, max, windowMs);
    assert Bucket(Repeat(t, max) + [u], max, windowMs) == [] + [u] == [u];
    OneMoreCall(Repeat(t, max) + [u], v, max, windowMs);
    OnlyOne(Recent(v, windowMs), u);
  }

  lemma RepeatsAreOld(t: int, u: int, times: nat, windowMs: nat)
    requires u - t > windowMs
    ensures Filter(Recent(u, windowMs), Repeat(t, times)) == []
  {
    FilterNone(Recent(u, windowMs), Repeat(t, times));
  }

  lemma BreakingWindow(t: int, u: int, v: int, max: nat, windowMs: nat)
    requires Near(v, windowMs)(t)
    ensures |Filter(InWindow(if t < v then t else v, windowMs), Repeat(t, max) + [u] + [v])| > max
  {
    hide Filter;
    var inside := InWindow(if t < v then t else v, windowMs);
    FilterConcat(inside, Repeat(t, max) + [u], [v]);
    FilterConcat(inside, Repeat(t, max), [u]);
    FilterAll(inside, Repeat(t, max));
    FilterAll(inside, [v]);
  }

  lemma ReenteringBreaks(readings: seq<int>, max: nat, windowMs: nat, i: nat, j: nat, k: nat)
    requires max >= 2 && Reenters(readings, windowMs, i, j, k)
    ensures !PatternObeys(readings, Breaking(|readings|, max, i, j, k), max, windowMs)
  {
    hide Pattern, Filter, Accepted, Repeat;
    var t, u, v := readings[i], readings[j], readings[k];
    BreakingPattern(readings, |readings|, max, i, j, k);
    assert readings[..|readings|] == readings;
    BreakingIsAccepted(t, u, v, max, windowMs);
    BreakingWindow(t, u, v, max, windowMs);
  }

  /**
   Three calls of a two-per-ten window are accepted within six ticks: the call at 120 dropped
   the first two from the bucket for good, and the clock then returns.
   */
  lemma ClockStepBreaksTheLimit()
    ensures Accepted([100, 105, 120, 106], 2, 10) == [100, 105, 120, 106]
    ensures |Filter(InWindow(100, 10), [100, 105, 120, 106])| == 3
  {
    hide Accepted, Bucket, Filter;
    NoCallsYet();
    OneMoreCall([], 100, 2, 10);
    FilterNone(Recent(100, 10), []);
    OneMoreCall([100], 105, 2, 10);
    FilterAll(Recent(105, 10), [100]);
    OneMoreCall([100, 105], 120, 2, 10);
    FilterNone(Recent(120, 10), [100, 105]);
    OneMoreCall([100, 105, 120], 106, 2, 10);
    FilterAll(Recent(106, 10), [120]);
    assert [] + [100] == [100] && [100] + [105] == [100, 105] && [] + [120] == [120];
    assert [100, 105] + [120] == [100, 105, 120] && [100, 105, 120] + [106] == [100, 105, 120, 106];
    var inside := InWindow(100, 10);
    FilterConcat(inside, [100, 105, 120], [106]);
    FilterConcat(inside, [100, 105], [120]);
    FilterAll(inside, [100, 105]);
    FilterNone(inside, [120]);
    FilterAll(inside, [106]);
  }

  lemma NoCallsYet()
    ensures Bucket([], 2, 10) == [] && Accepted([], 2, 10) == []
  {
  }

  // --- One call per window ---

  /** With a limit of one, an accepted call lies more than the window after the one before it. */
  lemma {:induction false} OneAtATime(calls: seq<int>, windowMs: nat)
    ensures forall i, j :: 0 <= i < j < |Accepted(calls, 1, windowMs)| ==>
              Accepted(calls, 1, windowMs)[j] - Accepted(calls, 1, windowMs)[i] > windowMs
    ensures var accepted := Accepted(calls, 1, windowMs);
            Bucket(calls, 1, windowMs) == if accepted == [] then [] else [accepted[|accepted| - 1]]
  {
    hide Filter, Bucket, Accepted;
    if calls == [] {
      NothingYet(windowMs);
    } else {
      var before, now := calls[..|calls| - 1], calls[|calls| - 1];
      var accepted := Accepted(before, 1, windowMs);
      OneAtATime(before, windowMs);
      assert calls == before + [now];
      OneMoreCall(before, now, 1, windowMs);
      if accepted == [] {
        FilterNone(Recent(now, windowMs), []);
      } else {
        OnlyOne(Recent(now, windowMs), accepted[|accepted| - 1]);
      }
    }
  }

  lemma NothingYet(windowMs: nat)
    ensures Bucket([], 1, windowMs) == Accepted([], 1, windowMs) == []
  {
  }

  lemma OnlyOne<T>(p: T -> bool, x: T)
    ensures Filter(p, [x]) == if p(x) then [x] else []
  {
  }

  lemma {:induction false} SparseWindow(s: seq<int>, windowMs: nat, from: int)
    requires forall i, j :: 0 <= i < j < |s| ==> s[j] - s[i] > windowMs
    ensures |Filter(InWindow(from, windowMs), s)| <= 1
  {
    if s != [] {
      SparseWindow(s[1..], windowMs, from);
      FilterFirst(InWindow(from, windowMs), s);
      if InWindow(from, windowMs)(s[0]) {
        forall ts | ts in s[1..] ensures !InWindow(from, windowMs)(ts) {
          var i :| 0 <= i < |s| - 1 && s[1..][i] == ts;
          assert s[i + 1] - s[0] > windowMs;
        }
        FilterNone(InWindow(from, windowMs), s[1..]);
      }
    }
  }

  lemma {:induction false} NothingPasses(calls: seq<int>, windowMs: nat)
    ensures Accepted(calls, 0, windowMs) == []
  {
    if calls != [] {
      NothingPasses(calls[..|calls| - 1], windowMs);
    }
  }

  lemma SmallLimitHolds(calls: seq<int>, max: nat, windowMs: nat)
    requires max <= 1
    ensures LimitHolds(calls, max, windowMs)
  {
    hide Accepted, Filter;
    forall from ensures |Filter(InWindow(from, windowMs), Accepted(calls, max, windowMs))| <= max {
      if max == 0 {
        NothingPasses(calls, windowMs);
        FilterNone(InWindow(from, windowMs), []);
      } else {
        OneAtATime(calls, windowMs);
        SparseWindow(Accepted(calls, 1, windowMs), windowMs, from);
      }
    }
  }

  /**
   Every pattern of calls at some clock readings obeys the limit exactly when the clock, once
   it has left the window after a reading, never comes near that reading again. A limit of one
   call, or none, is obeyed at any readings.
   */
  lemma LimitHoldsExactly(readings: seq<int>, max: nat, windowMs: nat)
    ensures (forall counts: seq<nat> :: PatternObeys(readings, counts, max, windowMs)) <==>
            max <= 1 || forall i: nat, j: nat, k: nat :: !Reenters(readings, windowMs, i, j, k)
  {
    hide Reenters, LimitHolds, Pattern;
    if max <= 1 {
      forall counts: seq<nat> ensures PatternObeys(readings, counts, max, windowMs) {
        if |counts| == |readings| {
          SmallLimitHolds(Pattern(readings, counts), max, windowMs);
        }
      }
    } else if i: nat, j: nat, k: nat :| Reenters(readings, windowMs, i, j, k) {
      ReenteringBreaks(readings, max, windowMs, i, j, k);
    } else {
      forall counts: seq<nat> ensures PatternObeys(readings, counts, max, windowMs) {
        if |counts| == |readings| {
          QuietPatternObeys(readings, counts, max, windowMs);
        }
      }
    }
  }

  lemma QuietPatternObeys(readings: seq<int>, counts: seq<nat>, max: nat, windowMs: nat)
    requires |counts| == |readings| && forall i: nat, j: nat, k: nat :: !Reenters(readings, windowMs, i, j, k)
    ensures LimitHolds(Pattern(readings, counts), max, windowMs)
  {
    hide Pattern, Accepted, Filter, NeverReenters, Reenters;
    PatternNeverReenters(readings, counts, max, windowMs);
    forall from
      ensures |Filter(InWindow(from, windowMs), Accepted(Pattern(readings, counts), max, windowMs))| <= max
    {
      WindowHoldsAtMostMax(Pattern(readings, counts), max, windowMs, from);
    }
  }
}
