/**
 The fixed-window rate limiter: a counter per key that expires `ttl` milliseconds after the
 first hit of its window.
 */
module Throttler {
  import opened Basics

  type Key = nat

  /** A Redis counter; one left without an expiry lives until it gets one. */
  datatype Counter = Counter(hits: nat, expires: Option<int>)

  type Counters = map<Key, Counter>

  predicate Live(cs: Counters, key: Key, now: int) {
    key in cs && (cs[key].expires.Some? ==> now < cs[key].expires.value)
  }

  function HitsBefore(cs: Counters, key: Key, now: int): nat {
    if Live(cs, key, now) then cs[key].hits else 0
  }

  /** When the window of this hit ends. */
  function WindowEnd(cs: Counters, key: Key, ttl: int, now: int): int {
    if Live(cs, key, now) && cs[key].hits > 0 && cs[key].expires.Some? then cs[key].expires.value else now + ttl
  }

  function Hit(cs: Counters, key: Key, ttl: int, now: int): Counters {
    cs[key := Counter(HitsBefore(cs, key, now) + 1, Some(WindowEnd(cs, key, ttl, now)))]
  }

  /** What the storage reports; the throttler guard rejects a blocked hit. */
  datatype Report = Report(totalHits: nat, timeToExpire: int, isBlocked: bool, timeToBlockExpire: int)

  /** `Math.ceil(ms / 1000)`. */
  function CeilSeconds(ms: int): (s: int)
    ensures 1000 * (s - 1) < ms <= 1000 * s
  {
    (ms + 999) / 1000
  }

  /**
   A hit opens a window of length ttl if no window of its key is open, and counts up in the open
   one otherwise; the counters of other keys stay.
   */
  lemma HitExact(cs: Counters, key: Key, ttl: int, now: int)
    requires key in cs ==> cs[key].expires.Some? && cs[key].hits >= 1
    ensures
      var open := key in cs && now < cs[key].expires.value;
      Hit(cs, key, ttl, now) ==
        cs[key := if open then Counter(cs[key].hits + 1, cs[key].expires) else Counter(1, Some(now + ttl))]
  {
  }

  class Storage {
    var counters: Counters

    constructor ()
      ensures counters == map[]
    {
      counters := map[];
    }

    /** INCR and PTTL in one transaction: the new count, and the remaining time or -1. */
    method IncrPttl(key: Key, now: int) returns (totalHits: nat, pttl: int)
      modifies this
      ensures totalHits == HitsBefore(old(counters), key, now) + 1
      ensures counters == old(counters)[key := Counter(
        totalHits, if Live(old(counters), key, now) then old(counters)[key].expires else None)]
      ensures pttl == if counters[key].expires.Some? then counters[key].expires.value - now else -1
    {
      if Live(counters, key, now) {
        counters := counters[key := counters[key].(hits := counters[key].hits + 1)];
      } else {
        counters := counters[key := Counter(1, None)];
      }
      totalHits := counters[key].hits;
      pttl := if counters[key].expires.Some? then counters[key].expires.value - now else -1;
    }

    method Increment(key: Key, ttl: int, limit: nat, now: int) returns (r: Report)
      modifies this
      ensures counters == Hit(old(counters), key, ttl, now)
      ensures r == Report(
        counters[key].hits, CeilSeconds(counters[key].expires.value - now), counters[key].hits > limit, 0)
    {
      var totalHits, timeToExpire := IncrPttl(key, now);
      if totalHits == 1 || timeToExpire < 0 {
        counters := counters[key := counters[key].(expires := Some(now + ttl))];
        timeToExpire := ttl;
      }
      return Report(totalHits, CeilSeconds(timeToExpire), totalHits > limit, 0);
    }
  }

  // ----- Runs

  /** A hit of the run with what became of it. */
  datatype Record = Record(key: Key, at: int, windowEnd: int, ordinal: nat, blocked: bool)

  /** Hits on any keys with one `ttl` and one `limit`, in the order they arrive. */
  datatype Run = Run(ttl: int, limit: nat, hits: seq<(Key, int)>)
  {
    predicate Valid() {
      && ttl > 0
      && forall i, j | 0 <= i < j < |hits| :: hits[i].1 <= hits[j].1
    }

    /** The counters before hit n. */
    function At(n: nat): Counters
      requires n <= |hits|
    {
      if n == 0 then map[] else Hit(At(n - 1), hits[n - 1].0, ttl, hits[n - 1].1)
    }

    function Outcome(n: nat): Record
      requires n < |hits|
    {
      var (key, now) := hits[n];
      var total := HitsBefore(At(n), key, now) + 1;
      Record(key, now, WindowEnd(At(n), key, ttl, now), total, total > limit)
    }

    /** The admitted hits on a key among the first n, from time `from` on and before `to`. */
    function Admitted(n: nat, key: Key, from: int, to: int): nat
      requires n <= |hits|
    {
      if n == 0 then 0
      else
        var r := Outcome(n - 1);
        Admitted(n - 1, key, from, to) + if r.key == key && !r.blocked && from <= r.at < to then 1 else 0
    }
  }

  // ----- The sliding bound

  /** With nothing before `from`, the count is zero; time passes between the two parts of an interval. */
  lemma {:induction false} AdmittedSplit(run: Run, n: nat, key: Key, from: int, mid: int, to: int)
    requires n <= |run.hits| && from <= mid <= to
    ensures run.Admitted(n, key, from, to) == run.Admitted(n, key, from, mid) + run.Admitted(n, key, mid, to)
  {
    if n > 0 {
      AdmittedSplit(run, n - 1, key, from, mid, to);
    }
  }

  lemma {:induction false} NothingFrom(run: Run, n: nat, key: Key, from: int, to: int)
    requires n <= |run.hits|
    requires forall i | 0 <= i < n && run.hits[i].0 == key :: run.hits[i].1 < from
    ensures run.Admitted(n, key, from, to) == 0
  {
    if n > 0 {
      NothingFrom(run, n - 1, key, from, to);
    }
  }

  lemma {:induction false} NothingAdmitted(run: Run, n: nat, key: Key, from: int, to: int)
    requires n <= |run.hits| && run.limit == 0
    ensures run.Admitted(n, key, from, to) == 0
  {
    if n > 0 {
      NothingAdmitted(run, n - 1, key, from, to);
    }
  }

  /** The start of the current or last window of a key. */
  ghost function Start(run: Run, n: nat, key: Key): int
    requires n <= |run.hits| && key in run.At(n) && run.At(n)[key].expires.Some?
  {
    run.At(n)[key].expires.value - run.ttl
  }

  /** The counter counts the hits of a window that has begun, and no hit came after the window. */
  ghost predicate CounterInv(run: Run, n: nat, key: Key)
    requires n <= |run.hits|
  {
    var cs := run.At(n);
    if key !in cs then forall i | 0 <= i < n :: run.hits[i].0 != key
    else
      && cs[key].expires.Some? && cs[key].hits >= 1
      && (forall i | 0 <= i < n && run.hits[i].0 == key :: run.hits[i].1 < cs[key].expires.value)
      && n > 0 && Start(run, n, key) <= run.hits[n - 1].1
  }

  lemma {:induction false} CounterHolds(run: Run, n: nat, key: Key)
    requires run.Valid() && n <= |run.hits|
    ensures CounterInv(run, n, key)
  {
    if n > 0 {
      CounterHolds(run, n - 1, key);
    }
  }

  /** In the window that begins at `start`, c hits admit at most min(c, limit), and the first came at the start. */
  ghost predicate WindowBound(run: Run, n: nat, key: Key, start: int, c: nat)
    requires n <= |run.hits|
  {
    forall from, to {:trigger run.Admitted(n, key, from, to)} ::
      && (from >= start ==> run.Admitted(n, key, from, to) <= Min(c, run.limit))
      && (from > start ==> run.Admitted(n, key, from, to) <= Max(Min(c, run.limit) - 1, 0))
  }

  lemma {:induction false} WindowBoundHolds(run: Run, n: nat, key: Key)
    requires run.Valid() && n <= |run.hits| && key in run.At(n)
    ensures CounterInv(run, n, key) && WindowBound(run, n, key, Start(run, n, key), run.At(n)[key].hits)
  {
    CounterHolds(run, n, key);
    CounterHolds(run, n - 1, key);
    var c, start := run.At(n)[key].hits, Start(run, n, key);
    var (k, now) := run.hits[n - 1];
    if k != key {
      WindowBoundHolds(run, n - 1, key);
      forall from, to
        ensures run.Admitted(n, key, from, to) == run.Admitted(n - 1, key, from, to)
      {
      }
    } else if Live(run.At(n - 1), key, now) {
      WindowBoundHolds(run, n - 1, key);
      assert run.Outcome(n - 1).ordinal == c;
    } else {
      var m := n - 1;
      forall from, to | from >= start ensures run.Admitted(m, key, from, to) == 0 {
        NothingFrom(run, m, key, from, to);
      }
    }
  }

  /** An interval that reaches the start of the window leaves out the first hit of any earlier window. */
  lemma {:induction false} BeforeWindow(run: Run, n: nat, key: Key, from: int)
    requires run.Valid() && n <= |run.hits| && key in run.At(n) && run.limit > 0
    requires CounterInv(run, n, key)
    requires from + run.ttl > Start(run, n, key)
    ensures run.Admitted(n, key, from, Start(run, n, key)) <= run.limit - 1
  {
    CounterHolds(run, n - 1, key);
    var start := Start(run, n, key);
    var (k, now) := run.hits[n - 1];
    if k != key || Live(run.At(n - 1), key, now) {
      assert start == Start(run, n - 1, key);
      BeforeWindow(run, n - 1, key, from);
    } else {
      BeforeNewWindow(run, n - 1, key, from, start);
    }
  }

  /** When a window begins at `start`, all earlier hits in reach lie in one window, after its first hit. */
  lemma BeforeNewWindow(run: Run, n: nat, key: Key, from: int, start: int)
    requires run.Valid() && n <= |run.hits| && run.limit > 0 && from + run.ttl > start
    requires key in run.At(n) ==> CounterInv(run, n, key) && Start(run, n, key) + run.ttl <= start
    ensures run.Admitted(n, key, from, start) <= run.limit - 1
  {
    if key in run.At(n) {
      WindowBoundHolds(run, n, key);
    } else {
      CounterHolds(run, n, key);
      NothingFrom(run, n, key, from, start);
    }
  }

  /** Any half-open interval of length ttl admits at most 2 * limit - 1 hits on a key, and none if the limit is 0. */
  lemma {:induction false} SlidingBound(run: Run, n: nat, key: Key, from: int)
    requires run.Valid() && n <= |run.hits|
    ensures run.Admitted(n, key, from, from + run.ttl) <= Max(2 * run.limit - 1, 0)
  {
    var to := from + run.ttl;
    if run.limit == 0 {
      NothingAdmitted(run, n, key, from, to);
    } else if n > 0 {
      SlidingBound(run, n - 1, key, from);
      if run.hits[n - 1].0 == key && run.hits[n - 1].1 < to {
        WindowBoundHolds(run, n, key);
        var start := Start(run, n, key);
        if from < start {
          AdmittedSplit(run, n, key, from, start, to);
          BeforeWindow(run, n, key, from);
          assert run.Admitted(n, key, start, to) <= run.limit;
        } else {
          assert run.Admitted(n, key, from, to) <= run.limit;
        }
      }
    }
  }

  // ----- The bound is reached

  /** One hit, then limit - 1 hits at the end of its window, then limit hits at the start of the next. */
  function Burst(ttl: int, limit: nat): Run
    requires limit > 0
  {
    Run(ttl, limit, seq(2 * limit, i => (0, if i == 0 then 0 else if i < limit then ttl - 1 else ttl)))
  }

  lemma {:induction false} BurstCounts(ttl: int, limit: nat, n: nat)
    requires ttl > 1 && limit > 0 && 1 <= n <= 2 * limit
    ensures Burst(ttl, limit).At(n) ==
      map[0 := if n <= limit then Counter(n, Some(ttl)) else Counter(n - limit, Some(2 * ttl))]
    ensures Burst(ttl, limit).Admitted(n, 0, 1, 1 + ttl) == n - 1
  {
    var run := Burst(ttl, limit);
    if n > 1 {
      BurstCounts(ttl, limit, n - 1);
    } else {
      assert run.At(0) == map[];
      assert run.hits[0] == (0, 0);
    }
  }

  /** The bound 2 * limit - 1 is reached for every limit and every ttl above one millisecond. */
  lemma SlidingBoundReached(ttl: int, limit: nat)
    requires ttl > 1 && limit > 0
    ensures var run := Burst(ttl, limit);
      run.Valid() && run.ttl == ttl && run.limit == limit
      && run.Admitted(|run.hits|, 0, 1, 1 + ttl) == 2 * limit - 1
  {
    BurstCounts(ttl, limit, 2 * limit);
  }

  // ----- Windows

  /** The hits of a window, and those of them that were admitted. */
  function WindowHits(run: Run, n: nat, key: Key, end: int): nat
    requires n <= |run.hits|
  {
    if n == 0 then 0
    else
      var r := run.Outcome(n - 1);
      WindowHits(run, n - 1, key, end) + if r.key == key && r.windowEnd == end then 1 else 0
  }

  function WindowAdmitted(run: Run, n: nat, key: Key, end: int): nat
    requires n <= |run.hits|
  {
    if n == 0 then 0
    else
      var r := run.Outcome(n - 1);
      WindowAdmitted(run, n - 1, key, end) + if r.key == key && r.windowEnd == end && !r.blocked then 1 else 0
  }

  /** The counter of a key counts exactly the hits of its newest window. */
  lemma {:induction false} NewestWindow(run: Run, n: nat, key: Key, end: int)
    requires run.Valid() && n <= |run.hits|
    ensures key !in run.At(n) ==> WindowHits(run, n, key, end) == 0
    ensures key in run.At(n) ==>
      && run.At(n)[key].expires.Some? && run.At(n)[key].hits >= 1
      && (end == run.At(n)[key].expires.value ==> WindowHits(run, n, key, end) == run.At(n)[key].hits)
      && (end > run.At(n)[key].expires.value ==> WindowHits(run, n, key, end) == 0)
  {
    CounterHolds(run, n, key);
    if n > 0 {
      NewestWindow(run, n - 1, key, end);
    }
  }

  /** A window admits its first `limit` hits and blocks all the others. */
  lemma {:induction false} WindowAdmitsExactly(run: Run, n: nat, key: Key, end: int)
    requires run.Valid() && n <= |run.hits|
    ensures WindowAdmitted(run, n, key, end) == Min(run.limit, WindowHits(run, n, key, end))
  {
    if n > 0 {
      WindowAdmitsExactly(run, n - 1, key, end);
      NewestWindow(run, n - 1, key, end);
      NewestWindow(run, n, key, end);
    }
  }

  lemma {:induction false} OverLimitStays(run: Run, m: nat, n: nat)
    requires run.Valid() && m < n < |run.hits| && run.Outcome(m).blocked
    requires run.hits[n].1 < run.Outcome(m).windowEnd
    ensures var key := run.hits[m].0;
      && key in run.At(n) && run.At(n)[key].expires == Some(run.Outcome(m).windowEnd)
      && run.At(n)[key].hits > run.limit
    decreases n
  {
    if m + 1 < n {
      OverLimitStays(run, m, n - 1);
    }
  }

  /** A blocked key stays blocked until its window ends. */
  lemma BlockedUntilWindowEnd(run: Run, m: nat, n: nat)
    requires run.Valid() && m < n < |run.hits| && run.Outcome(m).blocked
    requires run.hits[n].0 == run.hits[m].0 && run.hits[n].1 < run.Outcome(m).windowEnd
    ensures run.Outcome(n).blocked && run.Outcome(n).windowEnd == run.Outcome(m).windowEnd
  {
    OverLimitStays(run, m, n);
  }
}
