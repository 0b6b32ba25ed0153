/** The in-memory fixed-window rate limiter. */
module RateLimit {
  import opened Common

  /** A window: requests seen in it, and its last instant. */
  datatype Visitor = Visitor(count: int, resetAt: int)

  datatype Event = Request(key: string, limit: int, window: int, at: int) | Cleanup(at: int)

  type Visitors = map<string, Visitor>

  // ---- One key ----

  predicate Current(v: Option<Visitor>, now: int) {
    v.Some? && now <= v.value.resetAt
  }

  function Next(v: Option<Visitor>, window: int, now: int): Visitor {
    if Current(v, now) then v.value.(count := v.value.count + 1) else Visitor(1, now + window)
  }

  predicate Allowed(v: Option<Visitor>, limit: int, now: int) {
    Current(v, now) ==> v.value.count + 1 <= limit
  }

  predicate Monotone(times: seq<int>) {
    forall i, j :: 0 <= i <= j < |times| ==> times[i] <= times[j]
  }

  /** How many of the requests made at `times` are allowed between `lo` and `hi`, inclusive. */
  function Count(v: Option<Visitor>, limit: int, window: int, times: seq<int>, lo: int, hi: int): nat
    decreases |times|
  {
    if times == [] then 0
    else
      var t := times[0];
      (if lo <= t <= hi && Allowed(v, limit, t) then 1 else 0)
      + Count(Some(Next(v, window, t)), limit, window, times[1..], lo, hi)
  }

  function Min(a: int, b: int): int {
    if a <= b then a else b
  }

  function Positive(a: int): nat {
    if a > 0 then a else 0
  }

  /** Inside one window, exactly the requests that are left of the limit are allowed. */
  lemma {:induction false} WindowAdmits(v: Visitor, limit: int, window: int, times: seq<int>, lo: int, hi: int)
    requires forall i :: 0 <= i < |times| ==> lo <= times[i] <= hi && times[i] <= v.resetAt
    ensures Count(Some(v), limit, window, times, lo, hi) == Min(|times|, Positive(limit - v.count))
    decreases |times|
  {
    if times == [] {
    } else {
      assert lo <= times[0] <= hi && times[0] <= v.resetAt;
      WindowAdmits(v.(count := v.count + 1), limit, window, times[1..], lo, hi);
    }
  }

  lemma {:induction false} NoneAfter(v: Option<Visitor>, limit: int, window: int, times: seq<int>, lo: int, hi: int)
    requires Monotone(times) && times != [] && times[0] > hi
    ensures Count(v, limit, window, times, lo, hi) == 0
    decreases |times|
  {
    if |times| > 1 {
      assert times[1..][0] == times[1] >= times[0];
      NoneAfter(Some(Next(v, window, times[0])), limit, window, times[1..], lo, hi);
    }
  }

  /** A window that lasts until `hi` admits no more than what it has left. */
  lemma {:induction false} LastWindow(v: Visitor, limit: int, window: int, times: seq<int>, lo: int, hi: int)
    requires Monotone(times) && hi <= v.resetAt
    ensures Count(Some(v), limit, window, times, lo, hi) <= Positive(limit - v.count)
    decreases |times|
  {
    if times == [] {
    } else {
      if times[0] > hi {
        NoneAfter(Some(v), limit, window, times, lo, hi);
      } else {
        LastWindow(v.(count := v.count + 1), limit, window, times[1..], lo, hi);
      }
    }
  }

  /** A window opened inside the interval admits at most the limit, as it is the last one there. */
  lemma FreshWindow(v: Option<Visitor>, limit: int, window: int, times: seq<int>, lo: int, hi: int)
    requires limit >= 1 && Monotone(times) && hi - lo <= window
    requires times != [] && lo <= times[0] && !Current(v, times[0])
    ensures Count(v, limit, window, times, lo, hi) <= limit
  {
    if times[0] > hi {
      NoneAfter(v, limit, window, times, lo, hi);
    } else {
      LastWindow(Visitor(1, times[0] + window), limit, window, times[1..], lo, hi);
    }
  }

  /** From the start of the interval on: what the current window has left, and then one more window. */
  lemma {:induction false} TwoWindows(v: Visitor, limit: int, window: int, times: seq<int>, lo: int, hi: int)
    requires limit >= 1 && Monotone(times) && hi - lo <= window && (times != [] ==> lo <= times[0])
    ensures Count(Some(v), limit, window, times, lo, hi) <= Positive(limit - v.count) + limit
    decreases |times|
  {
    if times == [] {
    } else {
      if times[0] <= v.resetAt {
        assert |times| > 1 ==> times[1..][0] == times[1] >= times[0];
        TwoWindows(v.(count := v.count + 1), limit, window, times[1..], lo, hi);
      } else {
        FreshWindow(Some(v), limit, window, times, lo, hi);
      }
    }
  }

  /** Any interval no longer than the window: at most one less than twice the limit. */
  lemma {:induction false} BurstBound(v: Option<Visitor>, limit: int, window: int, times: seq<int>, lo: int, hi: int)
    requires limit >= 1 && Monotone(times) && hi - lo <= window && (v.Some? ==> v.value.count >= 1)
    ensures Count(v, limit, window, times, lo, hi) <= 2 * limit - 1
    decreases |times|
  {
    if times == [] {
    } else {
      if times[0] < lo {
        BurstBound(Some(Next(v, window, times[0])), limit, window, times[1..], lo, hi);
      } else if Current(v, times[0]) {
        TwoWindows(v.value, limit, window, times, lo, hi);
      } else {
        FreshWindow(v, limit, window, times, lo, hi);
      }
    }
  }

  function Repeat(n: nat, t: int): seq<int> {
    seq(n, _ => t)
  }

  /** One request opens a window, the rest of the limit comes at its last instant, and a full limit right after. */
  function Burst(limit: nat, window: nat): seq<int>
    requires limit >= 1
  {
    [0] + (Repeat(limit - 1, window) + Repeat(limit, window + 1))
  }

  lemma {:induction false} CountAppend(v: Visitor, limit: int, window: int, n: nat, t: int, more: seq<int>, lo: int, hi: int)
    requires lo <= t <= hi && t <= v.resetAt
    ensures Count(Some(v), limit, window, Repeat(n, t) + more, lo, hi)
         == Min(n, Positive(limit - v.count)) + Count(Some(v.(count := v.count + n)), limit, window, more, lo, hi)
    decreases n
  {
    if n == 0 {
      assert Repeat(0, t) + more == more;
    } else {
      var all, rest := Repeat(n, t) + more, Repeat(n - 1, t) + more;
      assert all[0] == t && all[1..] == rest;
      var next := v.(count := v.count + 1);
      assert Next(Some(v), window, t) == next;
      assert Count(Some(v), limit, window, all, lo, hi)
          == (if v.count + 1 <= limit then 1 else 0) + Count(Some(next), limit, window, rest, lo, hi);
      CountAppend(next, limit, window, n - 1, t, more, lo, hi);
      assert next.(count := next.count + (n - 1)) == v.(count := v.count + n);
    }
  }

  /** The bound is reached, for every limit and every window of at least one tick, by an interval of one tick. */
  lemma BurstReached(limit: nat, window: nat)
    requires limit >= 1 && window >= 1
    ensures Monotone(Burst(limit, window))
    ensures Count(None, limit, window, Burst(limit, window), window, window + 1) == 2 * limit - 1
  {
    var lo, hi := window, window + 1;
    var first, second := Repeat(limit - 1, window), Repeat(limit, window + 1);
    var all := Burst(limit, window);
    assert all[1..] == first + second;
    var start := Visitor(1, window);
    CountAppend(start, limit, window, limit - 1, window, second, lo, hi);
    var used := Visitor(limit, window);
    assert second[0] == window + 1 && second[1..] == Repeat(limit - 1, window + 1);
    WindowAdmits(Visitor(1, 2 * window + 1), limit, window, second[1..], lo, hi);
    assert Count(Some(used), limit, window, second, lo, hi) == limit;
  }

  // ---- The whole limiter ----

  function VisitorOf(s: Visitors, key: string): Option<Visitor> {
    if key in s then Some(s[key]) else None
  }

  function Swept(s: Visitors, now: int): Visitors {
    map k | k in s && now <= s[k].resetAt :: s[k]
  }

  function Step(s: Visitors, e: Event): Visitors {
    match e
    case Request(key, _, window, at) => s[key := Next(VisitorOf(s, key), window, at)]
    case Cleanup(at) => Swept(s, at)
  }

  /** The requests of one key that are allowed between `lo` and `hi`, over a run of the whole limiter. */
  function CountKey(s: Visitors, es: seq<Event>, key: string, lo: int, hi: int): nat
    decreases |es|
  {
    if es == [] then 0
    else
      var e := es[0];
      (if e.Request? && e.key == key && lo <= e.at <= hi && Allowed(VisitorOf(s, key), e.limit, e.at) then 1 else 0)
      + CountKey(Step(s, e), es[1..], key, lo, hi)
  }

  predicate Clocked(es: seq<Event>) {
    forall i, j :: 0 <= i <= j < |es| ==> es[i].at <= es[j].at
  }

  function TimesOf(es: seq<Event>, key: string): seq<int> {
    if es == [] then []
    else (if es[0].Request? && es[0].key == key then [es[0].at] else []) + TimesOf(es[1..], key)
  }

  /** Two records of a key that no later request can tell apart. */
  predicate SameFrom(a: Option<Visitor>, b: Option<Visitor>, now: int) {
    a == b || (!Current(a, now) && !Current(b, now))
  }

  /** A key's fate depends on its own requests alone: other keys and clean-ups, at any moments, change nothing. */
  lemma {:induction false} Projection(
    s: Visitors, v: Option<Visitor>, es: seq<Event>, key: string, limit: int, window: int, lo: int, hi: int)
    requires Clocked(es) && (es != [] ==> SameFrom(VisitorOf(s, key), v, es[0].at))
    requires forall e <- es :: e.Request? && e.key == key ==> e.limit == limit && e.window == window
    ensures CountKey(s, es, key, lo, hi) == Count(v, limit, window, TimesOf(es, key), lo, hi)
    decreases |es|
  {
    if es == [] {
    } else {
      var e, more := es[0], es[1..];
      var w := if Mine(e, key) then Some(Next(v, window, e.at)) else v;
      assert forall x <- more :: x in es;
      if more != [] {
        assert more[0] == es[1] && e.at <= more[0].at;
        SameNext(s, v, e, key, window, more[0].at);
      }
      assert e in es;
      Projection(Step(s, e), w, more, key, limit, window, lo, hi);
      TimesFirst(es, key);
    }
  }

  predicate Mine(e: Event, key: string) {
    e.Request? && e.key == key
  }

  lemma TimesFirst(es: seq<Event>, key: string)
    requires es != []
    ensures TimesOf(es, key) == if Mine(es[0], key) then [es[0].at] + TimesOf(es[1..], key) else TimesOf(es[1..], key)
    ensures Mine(es[0], key) ==> TimesOf(es, key) != [] && TimesOf(es, key)[0] == es[0].at
                                 && TimesOf(es, key)[1..] == TimesOf(es[1..], key)
  {
  }

  /** One event leaves the records of a key alike for all later requests. */
  lemma SameNext(s: Visitors, v: Option<Visitor>, e: Event, key: string, window: int, later: int)
    requires SameFrom(VisitorOf(s, key), v, e.at) && e.at <= later && (Mine(e, key) ==> e.window == window)
    ensures SameFrom(VisitorOf(Step(s, e), key), if Mine(e, key) then Some(Next(v, window, e.at)) else v, later)
  {
  }

  lemma {:induction false} TimesMonotone(es: seq<Event>, key: string)
    requires Clocked(es)
    ensures Monotone(TimesOf(es, key))
    ensures forall t <- TimesOf(es, key) :: es != [] && es[0].at <= t
    decreases |es|
  {
    if es == [] {
    } else {
      TimesMonotone(es[1..], key);
      assert |es| > 1 ==> es[1..][0] == es[1] && es[0].at <= es[1].at;
      var rest := TimesOf(es[1..], key);
      forall i | 0 <= i < |rest| ensures es[0].at <= rest[i] { assert rest[i] in rest; }
    }
  }

  /** Over every run of the limiter, with any other traffic and clean-ups at any moments: an interval no longer than the
      window contains at most 2 * limit - 1 allowed requests of a key. */
  lemma LimiterBurstBound(es: seq<Event>, key: string, limit: int, window: int, lo: int, hi: int)
    requires Clocked(es) && limit >= 1 && hi - lo <= window
    requires forall e <- es :: e.Request? && e.key == key ==> e.limit == limit && e.window == window
    ensures CountKey(map[], es, key, lo, hi) <= 2 * limit - 1
  {
    Projection(map[], None, es, key, limit, window, lo, hi);
    TimesMonotone(es, key);
    BurstBound(None, limit, window, TimesOf(es, key), lo, hi);
  }

  // ---- Clean-up ----

  /** The answers given to the requests of a run, in order. */
  function Decisions(s: Visitors, es: seq<Event>): seq<bool>
    decreases |es|
  {
    if es == [] then []
    else
      var e := es[0];
      (if e.Request? then [Allowed(VisitorOf(s, e.key), e.limit, e.at)] else []) + Decisions(Step(s, e), es[1..])
  }

  function Requests(es: seq<Event>): seq<Event> {
    if es == [] then [] else (if es[0].Request? then [es[0]] else []) + Requests(es[1..])
  }

  predicate SameAll(s: Visitors, t: Visitors, now: int) {
    forall key <- s.Keys + t.Keys :: SameFrom(VisitorOf(s, key), VisitorOf(t, key), now)
  }

  lemma SameAfter(s: Visitors, t: Visitors, e: Event, later: int)
    requires SameAll(s, t, e.at) && e.at <= later
    ensures SameAll(Step(s, e), if e.Request? then Step(t, e) else t, later)
  {
    var s', t' := Step(s, e), if e.Request? then Step(t, e) else t;
    forall key | key in s'.Keys + t'.Keys ensures SameFrom(VisitorOf(s', key), VisitorOf(t', key), later) {
      assert key in s.Keys + t.Keys ==> SameFrom(VisitorOf(s, key), VisitorOf(t, key), e.at);
    }
  }

  /** Running the clean-up at any moments never changes any answer to any key. */
  lemma {:induction false} CleanupInvisible(s: Visitors, t: Visitors, es: seq<Event>)
    requires Clocked(es) && (es != [] ==> SameAll(s, t, es[0].at))
    ensures Decisions(s, es) == Decisions(t, Requests(es))
    decreases |es|
  {
    if es == [] {
    } else {
      var e := es[0];
      var s', t' := Step(s, e), if e.Request? then Step(t, e) else t;
      if |es| > 1 {
        assert es[1..][0] == es[1] && es[0].at <= es[1].at;
        SameAfter(s, t, e, es[1].at);
      }
      CleanupInvisible(s', t', es[1..]);
      if e.Request? {
        assert Requests(es)[0] == e && Requests(es)[1..] == Requests(es[1..]);
        assert e.key in s.Keys + t.Keys ==> SameFrom(VisitorOf(s, e.key), VisitorOf(t, e.key), e.at);
      } else {
        assert Requests(es) == Requests(es[1..]);
      }
    }
  }

  // ---- The limiter object ----

  class RateLimiter {
    var visitors: Visitors

    constructor ()
      ensures visitors == map[]
    {
      visitors := map[];
    }

    /** The answer, and how many more requests fit the window it reports: of any further requests of this key up to the
        reset instant, exactly that many are allowed. */
    method Allow(key: string, limit: int, window: nat, now: int) returns (ok: bool, remaining: int, resetAt: int)
      modifies this
      ensures visitors == Step(old(visitors), Request(key, limit, window, now))
      ensures ok == Allowed(VisitorOf(old(visitors), key), limit, now)
      ensures limit >= 1 ==> remaining >= 0 && now <= resetAt && forall times: seq<int> ::
                (forall i :: 0 <= i < |times| ==> now <= times[i] <= resetAt) ==>
                  Count(VisitorOf(visitors, key), limit, window, times, now, resetAt) == Min(|times|, remaining)
    {
      if key !in visitors || now > visitors[key].resetAt {
        visitors := visitors[key := Visitor(1, now + window)];
        ok, remaining, resetAt := true, limit - 1, now + window;
      } else {
        var v := visitors[key];
        v := v.(count := v.count + 1);
        visitors := visitors[key := v];
        remaining := limit - v.count;
        if remaining < 0 {
          remaining := 0;
        }
        ok, resetAt := v.count <= limit, v.resetAt;
      }
      forall times: seq<int> | limit >= 1 && forall i :: 0 <= i < |times| ==> now <= times[i] <= resetAt
        ensures Count(VisitorOf(visitors, key), limit, window, times, now, resetAt) == Min(|times|, remaining)
      {
        WindowAdmits(visitors[key], limit, window, times, now, resetAt);
      }
    }

    method CleanupOnce(now: int)
      modifies this
      ensures visitors == Step(old(visitors), Cleanup(now))
    {
      var keys := visitors.Keys;
      while keys != {}
        invariant keys <= old(visitors).Keys
        invariant visitors == map k | k in old(visitors) && (k in keys || now <= old(visitors)[k].resetAt) :: old(visitors)[k]
        decreases |keys|
      {
        var k :| k in keys;
        if now > visitors[k].resetAt {
          visitors := visitors - {k};
        }
        keys := keys - {k};
      }
    }
  }
}
