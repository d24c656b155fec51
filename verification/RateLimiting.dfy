/** The fixed-window rate limiter, and how many requests it lets through over unbounded runs. */
module RateLimiting {
  import opened RolloverModel

  datatype Bucket = Bucket(start: Instant, count: nat)

  /** The zero value that a Go map yields for an absent key. */
  const NO_BUCKET := Bucket(ZERO_TIME, 0)

  /** A request at `now` opens a new bucket. */
  predicate Opens(bucket: Bucket, now: Instant) {
    bucket.start == ZERO_TIME || Sub(now, bucket.start) >= MINUTE
  }

  function Hit(bucket: Bucket, now: Instant): Bucket {
    if Opens(bucket, now) then Bucket(now, 1) else Bucket(bucket.start, bucket.count + 1)
  }

  /** The bucket of one key after requests at the given instants. */
  function BucketAfter(times: seq<Instant>): Bucket {
    if times == [] then NO_BUCKET else Hit(BucketAfter(times[..|times|-1]), times[|times|-1])
  }

  /** The decision about the `i`th request of a key. */
  predicate Admitted(limit: nat, times: seq<Instant>, i: nat)
    requires i < |times|
  {
    BucketAfter(times[..i+1]).count <= limit
  }

  lemma BucketAppend(times: seq<Instant>, now: Instant)
    ensures BucketAfter(times + [now]) == Hit(BucketAfter(times), now)
    ensures forall limit: nat :: Admitted(limit, times + [now], |times|) <==> BucketAfter(times + [now]).count <= limit
  {
    var all := times + [now];
    assert all[..|all|-1] == times;
    assert all[..|times|+1] == all;
  }

  class RateLimiter {
    const limit: nat
    var buckets: map<string, Bucket>
    /** For each key, the instants of all its requests in lock order. */
    ghost var history: map<string, seq<Instant>>

    constructor (limit: nat)
      ensures this.limit == limit && Valid() && forall key :: History(key) == []
    {
      this.limit := limit;
      buckets := map[];
      history := map[];
    }

    ghost function History(key: string): seq<Instant>
      reads this
    {
      if key in history then history[key] else []
    }

    /** A map lookup: absent keys yield the zero bucket. */
    function BucketOf(key: string): Bucket
      reads this
    {
      if key in buckets then buckets[key] else NO_BUCKET
    }

    /** Every stored bucket is determined by the requests of its own key. */
    ghost predicate Valid()
      reads this
    {
      forall key :: BucketOf(key) == BucketAfter(History(key))
    }

    /** One request passing through the middleware; the decision depends on the history of its key only. */
    method Request(key: string, now: Instant) returns (admitted: bool)
      requires Valid()
      modifies this
      ensures Valid()
      ensures History(key) == old(History(key)) + [now]
      ensures forall other :: other != key ==> History(other) == old(History(other))
      ensures admitted == Admitted(limit, History(key), |old(History(key))|)
    {
      var bucket := BucketOf(key);
      if bucket.start == ZERO_TIME || Sub(now, bucket.start) >= MINUTE {
        bucket := Bucket(now, 0);
      }
      bucket := bucket.(count := bucket.count + 1);
      buckets := buckets[key := bucket];
      BucketAppend(History(key), now);
      history := history[key := History(key) + [now]];
      forall other | other != key ensures BucketOf(other) == BucketAfter(History(other)) {
        assert old(BucketOf(other)) == BucketAfter(old(History(other)));
      }
      var exceeded := bucket.count > limit;
      admitted := !exceeded;
    }
  }

  /** Real clock readings: after the zero time and never decreasing in lock order. */
  ghost predicate ClockRun(times: seq<Instant>) {
    && (forall i :: 0 <= i < |times| ==> times[i] > ZERO_TIME)
    && forall i, j :: 0 <= i < j < |times| ==> times[i] <= times[j]
  }

  /** How many of the requests `from..to` are let through. */
  function Admissions(limit: nat, times: seq<Instant>, from: nat, to: nat): nat
    requires from <= to <= |times|
  {
    if from == to then 0
    else Admissions(limit, times, from, to - 1) + if Admitted(limit, times, to - 1) then 1 else 0
  }

  function BucketAt(times: seq<Instant>, i: nat): Bucket
    requires i < |times|
  {
    BucketAfter(times[..i+1])
  }

  lemma BucketStep(times: seq<Instant>, i: nat)
    requires i < |times|
    ensures BucketAt(times, i) == Hit(if i == 0 then NO_BUCKET else BucketAt(times, i - 1), times[i])
  {
    var upTo := times[..i+1];
    assert upTo[..|upTo|-1] == times[..i] && upTo[|upTo|-1] == times[i];
    assert if i > 0 then BucketAt(times, i - 1) == BucketAfter(times[..i]) else times[..i] == [];
    assert BucketAfter(upTo) == Hit(BucketAfter(times[..i]), times[i]);
  }

  /** The current bucket opened no later than the request, less than a minute before it. */
  lemma {:induction false} BucketIsCurrent(times: seq<Instant>, i: nat)
    requires ClockRun(times) && i < |times|
    ensures ZERO_TIME < BucketAt(times, i).start <= times[i] < BucketAt(times, i).start + MINUTE
    ensures BucketAt(times, i).count >= 1
  {
    BucketStep(times, i);
    if i == 0 {
    } else {
      BucketIsCurrent(times, i - 1);
    }
  }

  lemma OneMoreRequest(limit: nat, times: seq<Instant>, from: nat, to: nat)
    requires from < to <= |times|
    ensures Admissions(limit, times, from, to) ==
            Admissions(limit, times, from, to - 1) + if BucketAt(times, to - 1).count <= limit then 1 else 0
  {
  }

  function Min(a: nat, b: nat): nat {
    if a < b then a else b
  }

  /** The requests `from..to` fill one bucket lifetime: the first opens it and the others join it. */
  ghost predicate Lifetime(times: seq<Instant>, from: nat, to: nat) {
    && from < to <= |times|
    && Opens(BucketAfter(times[..from]), times[from])
    && forall i :: from <= i < to - 1 ==> !Opens(BucketAt(times, i), times[i+1])
  }

  lemma {:induction false} LifetimeCount(limit: nat, times: seq<Instant>, from: nat, to: nat)
    requires Lifetime(times, from, to)
    ensures BucketAt(times, to - 1).count == to - from
    ensures Admissions(limit, times, from, to) == Min(limit, to - from)
  {
    BucketStep(times, to - 1);
    if to == from + 1 {
      assert times[..from+1][..from] == times[..from];
      assert Admissions(limit, times, from, from) == 0;
    } else {
      LifetimeCount(limit, times, from, to - 1);
      assert !Opens(BucketAt(times, to - 2), times[to - 2 + 1]);
    }
  }

  /** A lifetime is a fixed window: it starts with its first request and ends within a minute of it. */
  lemma {:induction false} LifetimeIsOneMinute(times: seq<Instant>, from: nat, to: nat)
    requires ClockRun(times) && Lifetime(times, from, to)
    ensures BucketAt(times, to - 1).start == times[from]
    ensures 0 <= times[to-1] - times[from] < MINUTE
  {
    BucketStep(times, to - 1);
    if to == from + 1 {
      assert times[..from+1][..from] == times[..from];
    } else {
      LifetimeIsOneMinute(times, from, to - 1);
      assert !Opens(BucketAt(times, to - 2), times[to - 2 + 1]);
    }
  }

  /** A refusal means that `limit` requests of the same key were admitted in the current bucket. */
  lemma RefusalMeansFull(limit: nat, times: seq<Instant>, from: nat, i: nat)
    requires i < |times| && Lifetime(times, from, i + 1) && !Admitted(limit, times, i)
    ensures Admissions(limit, times, from, i) == limit
  {
    LifetimeCount(limit, times, from, i + 1);
  }

  /** Every request belongs to a bucket lifetime. */
  lemma {:induction false} LifetimeOf(times: seq<Instant>, i: nat) returns (from: nat)
    requires i < |times|
    ensures Lifetime(times, from, i + 1)
  {
    if i == 0 {
      from := 0;
      assert times[..0] == [];
    } else if Opens(BucketAfter(times[..i]), times[i]) {
      from := i;
    } else {
      from := LifetimeOf(times, i - 1);
      assert BucketAt(times, i - 1) == BucketAfter(times[..i]);
      assert forall j :: from <= j < i ==> !Opens(BucketAt(times, j), times[j+1]);
    }
  }

  /** In real time: a refused request comes less than sixty seconds after `limit` admitted ones of its key. */
  lemma RefusalInRealTime(limit: nat, times: seq<Instant>, i: nat) returns (from: nat)
    requires ClockRun(times) && i < |times| && !Admitted(limit, times, i)
    ensures from <= i && Admissions(limit, times, from, i) == limit
    ensures forall j :: from <= j < i ==> times[i] - times[j] < 60_000_000_000
  {
    from := LifetimeOf(times, i);
    LifetimeIsOneMinute(times, from, i + 1);
    RefusalMeansFull(limit, times, from, i);
  }

  /** Nobody is shut out: from sixty seconds after any request on, one of the next requests is admitted. */
  lemma AdmittedAgain(limit: nat, times: seq<Instant>, i: nat, j: nat) returns (k: nat)
    requires limit > 0 && ClockRun(times) && i < j < |times| && times[j] - times[i] >= 60_000_000_000
    ensures i < k <= j && Admitted(limit, times, k)
  {
    k := LifetimeOf(times, j);
    LifetimeIsOneMinute(times, k, j + 1);
    BucketStep(times, k);
    assert times[..k+1][..k] == times[..k];
  }

  /**
   Counting from request `from`, the bucket in force at `from` and the next one are the only buckets that
   a closed interval of one minute can meet.
   */
  lemma {:induction false} TwoBuckets(limit: nat, times: seq<Instant>, from: nat, to: nat)
    requires ClockRun(times) && from < to <= |times| && times[to-1] <= times[from] + MINUTE
    ensures var first, last := BucketAt(times, from), BucketAt(times, to - 1);
            if last.start == first.start then Admissions(limit, times, from, to) <= Min(limit, last.count)
            else last.start > times[from] && Admissions(limit, times, from, to) <= limit + Min(limit, last.count)
  {
    BucketIsCurrent(times, from);
    if to == from + 1 {
      assert Admissions(limit, times, from, from) == 0;
    } else {
      TwoBuckets(limit, times, from, to - 1);
      BucketIsCurrent(times, to - 2);
      BucketStep(times, to - 1);
      OneMoreRequest(limit, times, from, to);
      hide BucketAt;
      hide Admissions;
    }
  }

  /** Any interval of sixty seconds, end points included, admits at most twice the limit per key. */
  lemma AtMostTwiceTheLimit(limit: nat, times: seq<Instant>, from: nat, to: nat)
    requires ClockRun(times) && from <= to <= |times|
    requires from < to ==> times[to-1] - times[from] <= MINUTE
    ensures Admissions(limit, times, from, to) <= 2 * limit
  {
    if from < to {
      TwoBuckets(limit, times, from, to);
    }
  }

  /** The bound is tight: a full bucket, and a full one sixty seconds later. */
  lemma TwiceTheLimitIsReached(limit: nat, start: Instant)
    requires limit > 0 && start > ZERO_TIME
    ensures var times := seq(2 * limit, i => if i < limit then start else start + MINUTE);
            && ClockRun(times) && times[|times|-1] - times[0] <= MINUTE
            && Admissions(limit, times, 0, |times|) == 2 * limit
  {
    var times := seq(2 * limit, i => if i < limit then start else start + MINUTE);
    forall i | 0 <= i < |times| - 1 ensures Opens(BucketAt(times, i), times[i+1]) <==> i == limit - 1 {
      BucketIsCurrent(times, i);
    }
    assert times[..0] == [];
    assert Lifetime(times, 0, limit);
    assert Lifetime(times, limit, 2 * limit) by {
      assert Opens(BucketAt(times, limit - 1), times[limit - 1 + 1]);
    }
    LifetimeCount(limit, times, 0, limit);
    LifetimeCount(limit, times, limit, 2 * limit);
    AdmissionsSplit(limit, times, 0, limit, 2 * limit);
  }

  lemma {:induction false} AdmissionsSplit(limit: nat, times: seq<Instant>, from: nat, mid: nat, end: nat)
    requires from <= mid <= end <= |times|
    ensures Admissions(limit, times, from, end)
         == Admissions(limit, times, from, mid) + Admissions(limit, times, mid, end)
    decreases end - mid
  {
    if mid == end {
    } else {
      AdmissionsSplit(limit, times, from, mid, end - 1);
    }
  }
}
