/** The one-time-use nonce store: a time to live, a capacity, and no eviction of a live
    marker. Times are nanoseconds. */
module ReplayStore {
  type Markers = map<string, int>

  datatype Verdict = Accepted | EmptyNonce | Replayed(firstUsed: int) | AtCapacity

  datatype Limits = Limits(ttl: int, max: int)

  const DEFAULT_TTL: int := 86_400_000_000_000
  const DEFAULT_MAX: int := 65536

  predicate Sane(c: Limits) {
    c.ttl > 0 && c.max > 0
  }

  /** A marker is live until it is more than ttl old. */
  predicate Expired(c: Limits, stamp: int, now: int) {
    stamp < now - c.ttl
  }

  function Live(c: Limits, seen: Markers, now: int): Markers {
    map k | k in seen && !Expired(c, seen[k], now) :: seen[k]
  }

  datatype Outcome = Outcome(verdict: Verdict, seen: Markers)

  /** What one call answers and leaves behind. */
  function Presented(c: Limits, seen: Markers, nonce: string, now: int): Outcome {
    if nonce == "" then Outcome(EmptyNonce, seen)
    else if nonce in seen then Outcome(Replayed(seen[nonce]), seen)
    else if |seen| < c.max then Outcome(Accepted, seen[nonce := now])
    else
      var live := Live(c, seen, now);
      if |live| < c.max then Outcome(Accepted, live[nonce := now]) else Outcome(AtCapacity, live)
  }

  // ------------------------------------------------------------------- one call

  lemma {:induction false} SubsetIsSmaller<T>(a: set<T>, b: set<T>)
    requires a <= b
    ensures |a| <= |b| && (|a| == |b| ==> a == b)
  {
    assert b == a + (b - a);
  }

  /** A call accepts exactly a new nonce for which there is a free place, or a place
      held by a marker past its time. */
  lemma {:induction false} AcceptedExactly(c: Limits, seen: Markers, nonce: string, now: int)
    requires Sane(c) && |seen| <= c.max
    ensures Presented(c, seen, nonce, now).verdict == Accepted <==>
            nonce != "" && nonce !in seen && (|seen| < c.max || exists k :: k in seen && Expired(c, seen[k], now))
  {
    var live := Live(c, seen, now);
    SubsetIsSmaller(live.Keys, seen.Keys);
    if forall k :: k in seen ==> !Expired(c, seen[k], now) {
      assert live.Keys == seen.Keys;
    } else {
      var k :| k in seen && Expired(c, seen[k], now);
      assert k in seen.Keys && k !in live.Keys;
    }
  }

  /** A new nonce is refused for capacity only when max live markers are held, and then
      nothing changes. */
  lemma {:induction false} RefusedOnlyWhenFull(c: Limits, seen: Markers, nonce: string, now: int)
    requires Sane(c) && |seen| <= c.max
    requires Presented(c, seen, nonce, now).verdict == AtCapacity
    ensures |Live(c, seen, now)| == c.max
    ensures Presented(c, seen, nonce, now).seen == seen
  {
    SubsetIsSmaller(Live(c, seen, now).Keys, seen.Keys);
  }

  /** A call keeps the capacity, removes no live marker and moves no stamp. */
  lemma {:induction false} LiveMarkersStay(c: Limits, seen: Markers, nonce: string, now: int)
    requires Sane(c) && |seen| <= c.max
    ensures |Presented(c, seen, nonce, now).seen| <= c.max
    ensures Live(c, seen, now).Keys <= Presented(c, seen, nonce, now).seen.Keys
    ensures var after := Presented(c, seen, nonce, now).seen;
            forall k :: k in seen && k in after ==> after[k] == seen[k]
    ensures Presented(c, seen, nonce, now).seen.Keys <= seen.Keys + {nonce}
  {
    SubsetIsSmaller(Live(c, seen, now).Keys, seen.Keys);
  }

  lemma {:induction false} OneMoreKey(m: Markers, k: string, v: int)
    requires k !in m
    ensures |m[k := v]| == |m| + 1 && m[k := v] - {k} == m
  {
    assert m[k := v].Keys == m.Keys + {k};
  }

  /** A marker just made is live, and comes on top of the others. */
  lemma {:induction false} NewMarkerIsLive(c: Limits, seen: Markers, nonce: string, now: int)
    requires Sane(c) && nonce !in seen
    ensures var live := Live(c, seen, now);
            && |seen[nonce := now]| == |seen| + 1
            && Live(c, seen[nonce := now], now) == live[nonce := now]
            && |live[nonce := now]| == |live| + 1
            && live[nonce := now] - {nonce} == live
  {
    OneMoreKey(seen, nonce, now);
    OneMoreKey(Live(c, seen, now), nonce, now);
  }

  // ------------------------------------------------------------------- the store

  class MemReplayStore {
    var seen: Markers
    const limits: Limits

    ghost predicate Valid()
      reads this
    {
      Sane(limits) && |seen| <= limits.max
    }

    /** Limits that are not positive take the defaults. */
    constructor (ttl: int, max: int)
      ensures Valid() && seen == map[]
      ensures limits.ttl == if ttl > 0 then ttl else 24 * 60 * 60 * 1_000_000_000
      ensures limits.max == if max > 0 then max else 65_536
      ensures limits == Limits(if ttl <= 0 then DEFAULT_TTL else ttl, if max <= 0 then DEFAULT_MAX else max)
    {
      limits := Limits(if ttl <= 0 then DEFAULT_TTL else ttl, if max <= 0 then DEFAULT_MAX else max);
      seen := map[];
    }

    /** One sweep over the keys, in any order. */
    method Purge(now: int)
      modifies this`seen
      ensures seen == Live(limits, old(seen), now)
    {
      var keys := seen.Keys;
      while keys != {}
        invariant keys <= old(seen).Keys
        invariant seen == map k | k in old(seen) && (k in keys || !Expired(limits, old(seen)[k], now)) :: old(seen)[k]
        decreases |keys|
      {
        var k :| k in keys;
        if seen[k] < now - limits.ttl {
          seen := seen - {k};
        }
        keys := keys - {k};
      }
    }

    method CheckAndAdd(nonce: string, now: int) returns (verdict: Verdict)
      requires Valid()
      modifies this`seen
      ensures Valid()
      ensures Outcome(verdict, seen) == Presented(limits, old(seen), nonce, now)
    {
      LiveMarkersStay(limits, seen, nonce, now);
      if nonce == "" {
        return EmptyNonce;
      }
      if nonce in seen {
        return Replayed(seen[nonce]);
      }
      NewMarkerIsLive(limits, seen, nonce, now);
      seen := seen[nonce := now];
      if |seen| > limits.max {
        Purge(now);
        if |seen| > limits.max {
          seen := seen - {nonce};
          return AtCapacity;
        }
      }
      return Accepted;
    }
  }

  // ------------------------------------------------------------------------ runs

  datatype Call = Call(nonce: string, now: int)

  /** The markers after the first n calls on an empty store. */
  function After(c: Limits, calls: seq<Call>, n: nat): Markers
    requires n <= |calls|
  {
    if n == 0 then map[]
    else Presented(c, After(c, calls, n - 1), calls[n - 1].nonce, calls[n - 1].now).seen
  }

  function VerdictOf(c: Limits, calls: seq<Call>, i: nat): Verdict
    requires i < |calls|
  {
    Presented(c, After(c, calls, i), calls[i].nonce, calls[i].now).verdict
  }

  ghost predicate ClockForward(calls: seq<Call>) {
    forall i, j :: 0 <= i <= j < |calls| ==> calls[i].now <= calls[j].now
  }

  /** The store never holds more than max markers after a call. */
  lemma {:induction false} CapacityKept(c: Limits, calls: seq<Call>, n: nat)
    requires Sane(c) && n <= |calls|
    ensures |After(c, calls, n)| <= c.max
  {
    if n > 0 {
      CapacityKept(c, calls, n - 1);
      LiveMarkersStay(c, After(c, calls, n - 1), calls[n - 1].nonce, calls[n - 1].now);
    }
  }

  /** The marker of an accepted nonce stands, with its stamp, until more than ttl has
      passed. */
  lemma {:induction false} MarkerStands(c: Limits, calls: seq<Call>, i: nat, n: nat)
    requires Sane(c) && ClockForward(calls)
    requires i < n <= |calls| && VerdictOf(c, calls, i) == Accepted
    ensures var seen := After(c, calls, n);
            || calls[n - 1].now - calls[i].now > c.ttl
            || (calls[i].nonce in seen && seen[calls[i].nonce] == calls[i].now)
  {
    if n > i + 1 {
      MarkerStands(c, calls, i, n - 1);
      CapacityKept(c, calls, n - 1);
      LiveMarkersStay(c, After(c, calls, n - 1), calls[n - 1].nonce, calls[n - 1].now);
      assert calls[n - 2].now <= calls[n - 1].now;
    }
  }

  /** Two acceptances of one nonce are more than ttl apart. */
  lemma {:induction false} OneUsePerLifetime(c: Limits, calls: seq<Call>, i: nat, j: nat)
    requires Sane(c) && ClockForward(calls)
    requires i < j < |calls| && calls[i].nonce == calls[j].nonce
    requires VerdictOf(c, calls, i) == Accepted && VerdictOf(c, calls, j) == Accepted
    ensures calls[j].now - calls[i].now > c.ttl
  {
    MarkerStands(c, calls, i, j);
    assert calls[j - 1].now <= calls[j].now;
  }

  /** Within its lifetime a used nonce is answered with the time of its first use. */
  lemma {:induction false} ReplayNamesFirstUse(c: Limits, calls: seq<Call>, i: nat, j: nat)
    requires Sane(c) && ClockForward(calls)
    requires i < j < |calls| && calls[i].nonce == calls[j].nonce && calls[i].nonce != ""
    requires VerdictOf(c, calls, i) == Accepted && calls[j].now - calls[i].now <= c.ttl
    ensures VerdictOf(c, calls, j) == Replayed(calls[i].now)
  {
    MarkerStands(c, calls, i, j);
    assert calls[j - 1].now <= calls[j].now;
  }
}
