/** The Redis fixed-window limiter: how many requests it can accept in any window of time. */
module RateLimiter {

  /** A Redis counter with its expiry time; an expired counter is gone. */
  datatype Counter = Absent | Counting(count: nat, expiresAt: int)

  function Current(c: Counter, now: int): Counter {
    if c.Counting? && now >= c.expiresAt then Absent else c
  }

  /** INCR, and EXPIRE when the counter is new. */
  function Incremented(c: Counter, now: int, window: int): Counter {
    match Current(c, now)
    case Absent => Counting(1, now + window)
    case Counting(count, expiresAt) => Counting(count + 1, expiresAt)
  }

  /** Whether the request that makes the counter `c` is let through. */
  predicate Accepts(c: Counter, limit: nat) {
    c.Counting? && c.count <= limit
  }

  class RedisRateLimiter {
    /** One counter per route prefix and client address. */
    var counters: map<string, Counter>

    constructor ()
      ensures counters == map[]
    {
      counters := map[];
    }

    function Of(key: string): Counter
      reads this
    {
      if key in counters then counters[key] else Absent
    }

    /** One request; a rejected one is told after how long to retry. */
    method Limit(key: string, limit: nat, window: int, now: int) returns (accepted: bool, retryAfter: int)
      requires window > 0
      modifies this
      ensures counters == old(counters)[key := Incremented(old(Of(key)), now, window)]
      ensures accepted == Accepts(Incremented(old(Of(key)), now, window), limit)
      ensures !accepted ==> 0 < retryAfter && now + retryAfter == Of(key).expiresAt
    {
      var count, expiresAt := 1, now + window;
      if key in counters && counters[key].Counting? && now < counters[key].expiresAt {
        count, expiresAt := counters[key].count + 1, counters[key].expiresAt;
      }
      counters := counters[key := Counting(count, expiresAt)];
      retryAfter := 0;
      accepted := true;
      if count > limit {
        retryAfter := expiresAt - now;
        if retryAfter <= 0 {
          retryAfter := window;
        }
        accepted := false;
      }
    }
  }

  // ----- one key's requests over time -----

  ghost predicate InOrder(times: seq<int>) {
    forall i, j | 0 <= i < j < |times| :: times[i] <= times[j]
  }

  /** How many of the requests at `times` are accepted at a time t with a <= t < b. */
  function AcceptedBetween(c: Counter, times: seq<int>, limit: nat, window: int, a: int, b: int): nat
    decreases |times|
  {
    if times == [] then 0
    else
      var c' := Incremented(c, times[0], window);
      AcceptedBetween(c', times[1..], limit, window, a, b)
      + if a <= times[0] < b && Accepts(c', limit) then 1 else 0
  }

  function AfterRequests(c: Counter, times: seq<int>, window: int): Counter
    decreases |times|
  {
    if times == [] then c else AfterRequests(Incremented(c, times[0], window), times[1..], window)
  }

  function UpTo(x: int): nat {
    if x < 0 then 0 else x
  }

  lemma TailInOrder(times: seq<int>)
    requires InOrder(times) && times != []
    ensures InOrder(times[1..]) && forall i | 0 <= i < |times[1..]| :: times[0] <= times[1..][i]
  {
    assert forall i | 0 <= i < |times[1..]| :: times[1..][i] == times[i + 1];
  }

  lemma {:induction false} NoneAfter(c: Counter, times: seq<int>, limit: nat, window: int, a: int, b: int)
    requires forall i | 0 <= i < |times| :: times[i] >= b
    ensures AcceptedBetween(c, times, limit, window, a, b) == 0
    decreases |times|
  {
    if times != [] {
      assert forall i | 0 <= i < |times[1..]| :: times[1..][i] == times[i + 1];
      NoneAfter(Incremented(c, times[0], window), times[1..], limit, window, a, b);
    }
  }

  /** One counter lifetime accepts at most `limit` requests in all. */
  lemma {:induction false} LifetimeBound(c: Counter, times: seq<int>, limit: nat, window: int, a: int, b: int)
    requires c.Counting? && InOrder(times) && b <= c.expiresAt
    ensures AcceptedBetween(c, times, limit, window, a, b) <= UpTo(limit - c.count)
    decreases |times|
  {
    if times != [] {
      TailInOrder(times);
      if times[0] >= b {
        NoneAfter(c, times, limit, window, a, b);
      } else {
        LifetimeBound(Incremented(c, times[0], window), times[1..], limit, window, a, b);
      }
    }
  }

  /** Before the lifetime after this one could end, at most the rest of this one and `limit` more. */
  lemma {:induction false} TwoLifetimesBound(c: Counter, times: seq<int>, limit: nat, window: int, a: int, b: int)
    requires c.Counting? && InOrder(times) && window > 0 && b <= c.expiresAt + window
    ensures AcceptedBetween(c, times, limit, window, a, b) <= UpTo(limit - c.count) + limit
    decreases |times|
  {
    if times != [] {
      TailInOrder(times);
      var c' := Incremented(c, times[0], window);
      if times[0] < c.expiresAt {
        TwoLifetimesBound(c', times[1..], limit, window, a, b);
      } else {
        LifetimeBound(c', times[1..], limit, window, a, b);
      }
    }
  }

  /** Any half-open interval as long as the window sees at most 2 * limit - 1 accepted requests. */
  lemma {:induction false} WindowBound(c: Counter, times: seq<int>, limit: nat, window: int, a: int)
    requires InOrder(times) && window > 0 && (c.Counting? ==> c.count >= 1)
    ensures AcceptedBetween(c, times, limit, window, a, a + window) <= UpTo(2 * limit - 1)
    decreases |times|
  {
    if times != [] {
      TailInOrder(times);
      var c' := Incremented(c, times[0], window);
      if times[0] < a {
        WindowBound(c', times[1..], limit, window, a);
      } else if Current(c, times[0]).Counting? {
        TwoLifetimesBound(c, times, limit, window, a, a + window);
      } else {
        LifetimeBound(c', times[1..], limit, window, a, a + window);
      }
    }
  }

  /** No request, accepted or rejected, extends the lifetime of a counter that has not expired. */
  lemma {:induction false} RequestsNeverExtend(c: Counter, times: seq<int>, window: int)
    requires c.Counting? && forall i | 0 <= i < |times| :: times[i] < c.expiresAt
    ensures AfterRequests(c, times, window) == Counting(c.count + |times|, c.expiresAt)
    decreases |times|
  {
    if times != [] {
      assert forall i | 0 <= i < |times[1..]| :: times[1..][i] == times[i + 1];
      RequestsNeverExtend(Incremented(c, times[0], window), times[1..], window);
    }
  }

  function Repeat(t: int, n: nat): (times: seq<int>)
    ensures |times| == n && forall i | 0 <= i < n :: times[i] == t
  {
    if n == 0 then [] else [t] + Repeat(t, n - 1)
  }

  lemma {:induction false} RepeatedAccepts(c: Counter, t: int, n: nat, limit: nat, window: int, a: int, b: int)
    requires c.Counting? && t < c.expiresAt && c.count + n <= limit && a <= t < b
    ensures AcceptedBetween(c, Repeat(t, n), limit, window, a, b) == n
    ensures AfterRequests(c, Repeat(t, n), window) == Counting(c.count + n, c.expiresAt)
    decreases n
  {
    if n > 0 {
      assert Repeat(t, n)[1..] == Repeat(t, n - 1);
      RepeatedAccepts(Incremented(c, t, window), t, n - 1, limit, window, a, b);
    }
  }

  lemma {:induction false} AcceptedConcat(c: Counter, xs: seq<int>, ys: seq<int>, limit: nat, window: int,
                                          a: int, b: int)
    ensures AcceptedBetween(c, xs + ys, limit, window, a, b) ==
      AcceptedBetween(c, xs, limit, window, a, b)
      + AcceptedBetween(AfterRequests(c, xs, window), ys, limit, window, a, b)
    decreases |xs|
  {
    if xs == [] {
      assert xs + ys == ys;
    } else {
      assert (xs + ys)[1..] == xs[1..] + ys;
      AcceptedConcat(Incremented(c, xs[0], window), xs[1..], ys, limit, window, a, b);
    }
  }

  /** The requests at `times` see 2 * limit - 1 acceptances between window - 1 and 2 * window - 1. */
  ghost predicate AttainsBound(times: seq<int>, limit: nat, window: int) {
    InOrder(times)
    && AcceptedBetween(Absent, times, limit, window, window - 1, window - 1 + window) == 2 * limit - 1
  }

  /** One request at 0, then as many as are accepted just before and just after the counter expires. */
  function Burst(limit: nat, window: int): seq<int>
    requires limit >= 1
  {
    [0] + (Repeat(window - 1, limit - 1) + ([window] + Repeat(window, limit - 1)))
  }

  lemma BurstInOrder(limit: nat, window: int)
    requires limit >= 1 && window >= 2
    ensures InOrder(Burst(limit, window))
  {
    var times := Burst(limit, window);
    assert forall i | 0 <= i < |times| ::
      times[i] == if i == 0 then 0 else if i < limit then window - 1 else window;
  }

  /** The bound is attained: this limiter is a fixed window, not a sliding one. */
  lemma WindowBoundIsTight(limit: nat, window: int)
    requires limit >= 1 && window >= 2
    ensures exists times :: AttainsBound(times, limit, window)
  {
    var a, b := window - 1, window - 1 + window;
    var late, next := Repeat(window - 1, limit - 1), Repeat(window, limit - 1);
    var c1, c2, c3 := Counting(1, window), Counting(limit, window), Counting(1, window + window);
    RepeatedAccepts(c1, window - 1, limit - 1, limit, window, a, b);
    RepeatedAccepts(c3, window, limit - 1, limit, window, a, b);
    assert ([window] + next)[1..] == next && Incremented(c2, window, window) == c3;
    assert AcceptedBetween(c2, [window] + next, limit, window, a, b) == limit;
    AcceptedConcat(c1, late, [window] + next, limit, window, a, b);
    var times := Burst(limit, window);
    assert times[1..] == late + ([window] + next) && Incremented(Absent, 0, window) == c1;
    BurstInOrder(limit, window);
    assert AttainsBound(times, limit, window);
  }

  /** This timeline has more than `limit` requests accepted in the interval of the window's length from a. */
  ghost predicate ExceedsInWindow(times: seq<int>, limit: nat, window: int, a: int) {
    InOrder(times) && AcceptedBetween(Absent, times, limit, window, a, a + window) > limit
  }

  /** A sliding window would never let more than `limit` through in an interval of its length; this limiter can,
      for every limit above one and no other. */
  lemma ExceedsInWindowIff(limit: nat, window: int)
    requires window >= 2
    ensures (exists times, a :: ExceedsInWindow(times, limit, window, a)) <==> limit >= 2
  {
    if limit >= 2 {
      WindowBoundIsTight(limit, window);
      var times :| AttainsBound(times, limit, window);
      assert ExceedsInWindow(times, limit, window, window - 1);
    }
    if times, a :| ExceedsInWindow(times, limit, window, a) {
      WindowBound(Absent, times, limit, window, a);
    }
  }

  // ----- many keys -----

  datatype Request = Request(key: string, time: int)

  function Lookup(counters: map<string, Counter>, key: string): Counter {
    if key in counters then counters[key] else Absent
  }

  function TimesOf(key: string, requests: seq<Request>): seq<int> {
    if requests == [] then []
    else (if requests[0].key == key then [requests[0].time] else []) + TimesOf(key, requests[1..])
  }

  /** How many requests for `key` are accepted at a time t with a <= t < b, among requests for any keys. */
  function AcceptedFor(key: string, counters: map<string, Counter>, requests: seq<Request>, limit: nat, window: int,
                       a: int, b: int): nat
    decreases |requests|
  {
    if requests == [] then 0
    else
      var r := requests[0];
      var c := Incremented(Lookup(counters, r.key), r.time, window);
      AcceptedFor(key, counters[r.key := c], requests[1..], limit, window, a, b)
      + if r.key == key && a <= r.time < b && Accepts(c, limit) then 1 else 0
  }

  /** The other keys' requests never cost this key an acceptance, nor give it one. */
  lemma {:induction false} AcceptedAsIfAlone(key: string, counters: map<string, Counter>, requests: seq<Request>,
                                             limit: nat, window: int, a: int, b: int)
    ensures AcceptedFor(key, counters, requests, limit, window, a, b)
      == AcceptedBetween(Lookup(counters, key), TimesOf(key, requests), limit, window, a, b)
    decreases |requests|
  {
    if requests != [] {
      var r := requests[0];
      var next := counters[r.key := Incremented(Lookup(counters, r.key), r.time, window)];
      AcceptedAsIfAlone(key, next, requests[1..], limit, window, a, b);
      if r.key == key {
        assert TimesOf(key, requests)[0] == r.time && TimesOf(key, requests)[1..] == TimesOf(key, requests[1..]);
      } else {
        assert TimesOf(key, requests) == TimesOf(key, requests[1..]) && Lookup(next, key) == Lookup(counters, key);
      }
    }
  }

  ghost predicate RequestsInOrder(requests: seq<Request>) {
    forall i, j | 0 <= i < j < |requests| :: requests[i].time <= requests[j].time
  }

  lemma EarlierFirst(t: int, later: seq<int>)
    requires InOrder(later) && forall i | 0 <= i < |later| :: t <= later[i]
    ensures InOrder([t] + later) && forall i | 0 <= i < |[t] + later| :: t <= ([t] + later)[i]
  {
    assert forall i | 0 < i < |[t] + later| :: ([t] + later)[i] == later[i - 1];
  }

  lemma RestInOrder(requests: seq<Request>)
    requires requests != [] && RequestsInOrder(requests)
    ensures RequestsInOrder(requests[1..])
    ensures forall i | 0 <= i < |requests[1..]| :: requests[0].time <= requests[1..][i].time
  {
    assert forall i | 0 <= i < |requests[1..]| :: requests[1..][i] == requests[i + 1];
  }

  lemma {:induction false} TimesInOrder(key: string, requests: seq<Request>, start: int)
    requires RequestsInOrder(requests) && forall i | 0 <= i < |requests| :: start <= requests[i].time
    ensures InOrder(TimesOf(key, requests))
    ensures forall i | 0 <= i < |TimesOf(key, requests)| :: start <= TimesOf(key, requests)[i]
  {
    if requests != [] {
      var first := requests[0].time;
      RestInOrder(requests);
      TimesInOrder(key, requests[1..], first);
      var later := TimesOf(key, requests[1..]);
      EarlierFirst(first, later);
      if requests[0].key == key {
        assert TimesOf(key, requests) == [first] + later;
      } else {
        assert TimesOf(key, requests) == later;
      }
    }
  }

  /** For every timeline of requests by any clients, any interval as long as the window accepts at most
      2 * limit - 1 requests of one key. */
  lemma LimiterBound(key: string, requests: seq<Request>, limit: nat, window: int, a: int)
    requires RequestsInOrder(requests) && window > 0
    ensures AcceptedFor(key, map[], requests, limit, window, a, a + window) <= UpTo(2 * limit - 1)
  {
    AcceptedAsIfAlone(key, map[], requests, limit, window, a, a + window);
    TimesInOrder(key, requests, if requests == [] then 0 else requests[0].time);
    WindowBound(Absent, TimesOf(key, requests), limit, window, a);
  }
}
