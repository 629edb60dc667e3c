/** The in-memory sliding-window limiter of the login and signup calls (backend/src/auth/auth.service.ts:67-76). */
module RateLimiter {
  import opened Sequences

  /** `now - ts <= windowMs` */
  function Recent(now: int, windowMs: nat): int -> bool {
    (ts: int) => now - ts <= windowMs
  }

  function InWindow(from: int, windowMs: nat): int -> bool {
    (ts: int) => from <= ts <= from + windowMs
  }

  /** Whether a call at `now` passes, given the key's bucket. */
  predicate Passes(bucket: seq<int>, now: int, max: nat, windowMs: nat) {
    |Filter(Recent(now, windowMs), bucket)| < max
  }

  /** The key's bucket after a call at `now`: pruned and extended when it passes, kept as it was when refused. */
  function NextBucket(bucket: seq<int>, now: int, max: nat, windowMs: nat): seq<int> {
    if Passes(bucket, now, max, windowMs) then Filter(Recent(now, windowMs), bucket) + [now] else bucket
  }

  function BucketOf(buckets: map<string, seq<int>>, key: string): seq<int> {
    if key in buckets then buckets[key] else []
  }

  class AuthLimiter {
    var inMemoryRateLimit: map<string, seq<int>>

    constructor ()
      ensures inMemoryRateLimit == map[]
    {
      inMemoryRateLimit := map[];
    }

    /** `consumeRateLimit`: false when it throws "Please wait before trying again." */
    method ConsumeRateLimit(key: string, max: nat, windowMs: nat, now: int) returns (ok: bool)
      modifies this
      ensures ok == Passes(BucketOf(old(inMemoryRateLimit), key), now, max, windowMs)
      ensures BucketOf(inMemoryRateLimit, key) == NextBucket(BucketOf(old(inMemoryRateLimit), key), now, max, windowMs)
      ensures forall other :: other != key ==>
                BucketOf(inMemoryRateLimit, other) == BucketOf(old(inMemoryRateLimit), other)
      ensures !ok ==> inMemoryRateLimit == old(inMemoryRateLimit)
    {
      var bucket := BucketOf(inMemoryRateLimit, key);
      var pruned := [];
      var i := 0;
      while i < |bucket|
        invariant 0 <= i <= |bucket| && inMemoryRateLimit == old(inMemoryRateLimit)
        invariant pruned == Filter(Recent(now, windowMs), bucket[..i])
      {
        FilterConcat(Recent(now, windowMs), bucket[..i], [bucket[i]]);
        assert bucket[..i + 1] == bucket[..i] + [bucket[i]];
        if now - bucket[i] <= windowMs {
          pruned := pruned + [bucket[i]];
        }
        i := i + 1;
      }
      assert bucket[..i] == bucket;
      if |pruned| >= max {
        return false;
      }
      pruned := pruned + [now];
      inMemoryRateLimit := inMemoryRateLimit[key := pruned];
      return true;
    }
  }

  // --- Runs of calls for one key ---

  function Bucket(calls: seq<int>, max: nat, windowMs: nat): seq<int> {
    if calls == [] then [] else
      NextBucket(Bucket(calls[..|calls| - 1], max, windowMs), calls[|calls| - 1], max, windowMs)
  }

  /** Whether the last of the calls passes after the others. */
  predicate LastPasses(calls: seq<int>, max: nat, windowMs: nat)
    requires calls != []
  {
    Passes(Bucket(calls[..|calls| - 1], max, windowMs), calls[|calls| - 1], max, windowMs)
  }

  /** The times of the accepted calls. */
  function Accepted(calls: seq<int>, max: nat, windowMs: nat): seq<int> {
    if calls == [] then [] else
      Accepted(calls[..|calls| - 1], max, windowMs) +
        (if LastPasses(calls, max, windowMs) then [calls[|calls| - 1]] else [])
  }

  /** Whether call `i` is accepted. */
  predicate AcceptedAt(calls: seq<int>, i: nat, max: nat, windowMs: nat)
    requires i < |calls|
  {
    LastPasses(calls[..i + 1], max, windowMs)
  }

  /** Every accepted time is the time of an accepted call. */
  lemma {:induction false} AcceptedStem(calls: seq<int>, max: nat, windowMs: nat, ts: int) returns (i: nat)
    requires ts in Accepted(calls, max, windowMs)
    ensures i < |calls| && calls[i] == ts && AcceptedAt(calls, i, max, windowMs)
  {
    hide LastPasses;
    var n := |calls| - 1;
    if ts in Accepted(calls[..n], max, windowMs) {
      i := AcceptedStem(calls[..n], max, windowMs, ts);
      assert calls[..n][..i + 1] == calls[..i + 1];
    } else {
      i := n;
      assert calls[..n + 1] == calls;
    }
  }

  lemma {:induction false} BucketIsAccepted(calls: seq<int>, max: nat, windowMs: nat)
    ensures forall ts :: ts in Bucket(calls, max, windowMs) ==> ts in Accepted(calls, max, windowMs)
  {
    hide Filter, Passes;
    if calls != [] {
      BucketIsAccepted(calls[..|calls| - 1], max, windowMs);
      FilterMembers(Recent(calls[|calls| - 1], windowMs), Bucket(calls[..|calls| - 1], max, windowMs));
    }
  }

  /** No accepted call that `p` selects has been seen by a later accepted call more than the window ago. */
  ghost predicate NoneDropped(calls: seq<int>, max: nat, windowMs: nat, p: int -> bool) {
    forall i, j ::
      0 <= i < j < |calls| && AcceptedAt(calls, i, max, windowMs) && AcceptedAt(calls, j, max, windowMs) ==>
        p(calls[i]) ==> calls[j] - calls[i] <= windowMs
  }

  lemma AcceptedBefore(calls: seq<int>, max: nat, windowMs: nat, n: nat, i: nat)
    requires i < n <= |calls|
    ensures AcceptedAt(calls[..n], i, max, windowMs) == AcceptedAt(calls, i, max, windowMs)
  {
    assert calls[..n][..i + 1] == calls[..i + 1];
  }

  lemma NoneDroppedBefore(calls: seq<int>, max: nat, windowMs: nat, p: int -> bool, n: nat)
    requires NoneDropped(calls, max, windowMs, p) && n <= |calls|
    ensures NoneDropped(calls[..n], max, windowMs, p)
  {
    hide AcceptedAt;
    forall i: nat | i < n ensures AcceptedAt(calls[..n], i, max, windowMs) == AcceptedAt(calls, i, max, windowMs) {
      AcceptedBefore(calls, max, windowMs, n, i);
    }
  }

  /** Where the bucket dropped nothing that `p` selects, `p` selects the same from it as from the full record. */
  lemma {:induction false} BucketKeeps(calls: seq<int>, max: nat, windowMs: nat, p: int -> bool)
    requires NoneDropped(calls, max, windowMs, p)
    ensures Filter(p, Bucket(calls, max, windowMs)) == Filter(p, Accepted(calls, max, windowMs))
  {
    hide Filter, NoneDropped;
    if calls != [] {
      var before, last := calls[..|calls| - 1], calls[|calls| - 1];
      var bucket := Bucket(before, max, windowMs);
      NoneDroppedBefore(calls, max, windowMs, p, |calls| - 1);
      BucketKeeps(before, max, windowMs, p);
      FilterConcat(p, Filter(Recent(last, windowMs), bucket), [last]);
      FilterConcat(p, Accepted(before, max, windowMs), [last]);
      if LastPasses(calls, max, windowMs) {
        forall ts | ts in bucket && p(ts) ensures Recent(last, windowMs)(ts) {
          KeptByLast(calls, max, windowMs, p, ts);
        }
        FilterWithin(p, Recent(last, windowMs), bucket);
      }
      assert Accepted(before, max, windowMs) + [] == Accepted(before, max, windowMs);
    }
  }

  lemma KeptByLast(calls: seq<int>, max: nat, windowMs: nat, p: int -> bool, ts: int)
    requires calls != [] && NoneDropped(calls, max, windowMs, p) && LastPasses(calls, max, windowMs)
    requires ts in Bucket(calls[..|calls| - 1], max, windowMs) && p(ts)
    ensures calls[|calls| - 1] - ts <= windowMs
  {
    hide LastPasses, Bucket, Accepted;
    var n := |calls| - 1;
    BucketIsAccepted(calls[..n], max, windowMs);
    var i := AcceptedStem(calls[..n], max, windowMs, ts);
    AcceptedBefore(calls, max, windowMs, n, i);
    assert calls[..n + 1] == calls && AcceptedAt(calls, n, max, windowMs);
  }

  // --- Refusals ---

  /** Once an accepted call has seen an earlier accepted one more than the window ago, so does every later call. */
  ghost predicate NeverReturns(calls: seq<int>, max: nat, windowMs: nat) {
    forall i, j, k ::
      0 <= i < j < k < |calls| && AcceptedAt(calls, i, max, windowMs) && AcceptedAt(calls, j, max, windowMs) ==>
        calls[j] - calls[i] > windowMs ==> calls[k] - calls[i] > windowMs
  }

  /** A call is refused exactly when `max` accepted calls are no older than the window. */
  lemma RefusedExactlyWhenFull(calls: seq<int>, max: nat, windowMs: nat)
    requires calls != [] && NeverReturns(calls, max, windowMs)
    ensures LastPasses(calls, max, windowMs)
       <==> |Filter(Recent(calls[|calls| - 1], windowMs), Accepted(calls[..|calls| - 1], max, windowMs))| < max
  {
    hide AcceptedAt, Filter, Accepted, Bucket;
    var n := |calls| - 1;
    forall i: nat | i < n ensures AcceptedAt(calls[..n], i, max, windowMs) == AcceptedAt(calls, i, max, windowMs) {
      AcceptedBefore(calls, max, windowMs, n, i);
    }
    BucketKeeps(calls[..n], max, windowMs, Recent(calls[n], windowMs));
  }

  // --- Windows ---

  /** At most the window away, on either side. */
  function Near(now: int, windowMs: nat): int -> bool {
    (ts: int) => now - ts <= windowMs && ts - now <= windowMs
  }

  /**
   Once an accepted call has seen an earlier accepted one more than the window ago, no later
   call is near that one.
   */
  ghost predicate NeverReenters(calls: seq<int>, max: nat, windowMs: nat) {
    forall i, j, k ::
      0 <= i < j < k < |calls| && AcceptedAt(calls, i, max, windowMs) && AcceptedAt(calls, j, max, windowMs) ==>
        calls[j] - calls[i] > windowMs ==> !Near(calls[k], windowMs)(calls[i])
  }

  lemma NeverReentersBefore(calls: seq<int>, max: nat, windowMs: nat, n: nat)
    requires NeverReenters(calls, max, windowMs) && n <= |calls|
    ensures NeverReenters(calls[..n], max, windowMs)
  {
    hide AcceptedAt, Near;
    forall i: nat | i < n ensures AcceptedAt(calls[..n], i, max, windowMs) == AcceptedAt(calls, i, max, windowMs) {
      AcceptedBefore(calls, max, windowMs, n, i);
    }
  }

  /** Any closed window of length `windowMs` holds at most `max` accepted calls. */
  lemma {:induction false} WindowHoldsAtMostMax(calls: seq<int>, max: nat, windowMs: nat, from: int)
    requires NeverReenters(calls, max, windowMs)
    ensures |Filter(InWindow(from, windowMs), Accepted(calls, max, windowMs))| <= max
  {
    hide Filter, NeverReenters, LastPasses;
    var inside := InWindow(from, windowMs);
    if calls == [] {
      FilterNone(inside, Accepted(calls, max, windowMs));
    } else {
      var before, now := calls[..|calls| - 1], calls[|calls| - 1];
      var accepted := Accepted(before, max, windowMs);
      NeverReentersBefore(calls, max, windowMs, |calls| - 1);
      WindowHoldsAtMostMax(before, max, windowMs, from);
      FilterConcat(inside, accepted, [now]);
      assert accepted + [] == accepted;
      if !inside(now) {
        FilterNone(inside, [now]);
      } else {
        FilterAll(inside, [now]);
        SelectsFewer(inside, Near(now, windowMs), accepted);
        if LastPasses(calls, max, windowMs) {
          FewAreNear(calls, max, windowMs);
        }
      }
    }
  }

  /** An accepted call has fewer than `max` accepted calls near it. */
  lemma FewAreNear(calls: seq<int>, max: nat, windowMs: nat)
    requires calls != [] && NeverReenters(calls, max, windowMs) && LastPasses(calls, max, windowMs)
    ensures |Filter(Near(calls[|calls| - 1], windowMs), Accepted(calls[..|calls| - 1], max, windowMs))| < max
  {
    hide AcceptedAt, Filter, Accepted, Bucket;
    var n := |calls| - 1;
    var now, bucket := calls[n], Bucket(calls[..n], max, windowMs);
    forall i: nat | i < n ensures AcceptedAt(calls[..n], i, max, windowMs) == AcceptedAt(calls, i, max, windowMs) {
      AcceptedBefore(calls, max, windowMs, n, i);
    }
    BucketKeeps(calls[..n], max, windowMs, Near(now, windowMs));
    SelectsFewer(Near(now, windowMs), Recent(now, windowMs), bucket);
  }

  ghost predicate NonDecreasing(calls: seq<int>) {
    forall i, j :: 0 <= i < j < |calls| ==> calls[i] <= calls[j]
  }

  /** For a clock that never goes back both hold without further condition. */
  lemma NonDecreasingClock(calls: seq<int>, max: nat, windowMs: nat, from: int)
    requires NonDecreasing(calls)
    ensures |Filter(InWindow(from, windowMs), Accepted(calls, max, windowMs))| <= max
    ensures calls != [] ==>
              (LastPasses(calls, max, windowMs) <==>
               |Filter(Recent(calls[|calls| - 1], windowMs), Accepted(calls[..|calls| - 1], max, windowMs))| < max)
  {
    hide AcceptedAt, LastPasses, Accepted, Filter;
    assert NeverReenters(calls, max, windowMs) && NeverReturns(calls, max, windowMs);
    WindowHoldsAtMostMax(calls, max, windowMs, from);
    if calls != [] {
      RefusedExactlyWhenFull(calls, max, windowMs);
    }
  }

  lemma SelectsFewer<T>(p: T -> bool, q: T -> bool, s: seq<T>)
    requires forall x :: x in s && p(x) ==> q(x)
    ensures |Filter(p, s)| <= |Filter(q, s)|
  {
    FilterWithin(p, q, s);
  }
}
