/** A token bucket per address, refilled lazily, with idle buckets dropped from the table. */
module RateLimit {
  import opened Common

  // Seconds and tokens are exact numbers here.
  datatype Bucket = Bucket(tokens: real, lastRefill: real)
  datatype Limiter = Limiter(capacity: real, rate: real, buckets: map<Id, Bucket>)

  const EVICT_AFTER := 120.0

  function Min(a: real, b: real): real {
    if a <= b then a else b
  }

  function Refilled(b: Bucket, capacity: real, rate: real, now: real): Bucket {
    if now > b.lastRefill then Bucket(Min(capacity, b.tokens + (now - b.lastRefill) * rate), now) else b
  }

  function Evicted(buckets: map<Id, Bucket>, now: real, keep: Id): map<Id, Bucket> {
    map ip | ip in buckets && (ip == keep || now - buckets[ip].lastRefill <= EVICT_AFTER) :: buckets[ip]
  }

  // The bucket a request finds, before it takes its token.
  function BucketFor(l: Limiter, ip: Id, now: real): Bucket {
    if ip in l.buckets then Refilled(l.buckets[ip], l.capacity, l.rate, now) else Bucket(l.capacity, now)
  }

  function Take(l: Limiter, ip: Id, now: real): (Limiter, bool) {
    var b := BucketFor(l, ip, now);
    if b.tokens < 1.0 then (l.(buckets := l.buckets[ip := b]), false)
    else (l.(buckets := l.buckets[ip := b.(tokens := b.tokens - 1.0)]), true)
  }

  function Allow(l: Limiter, ip: Id, now: real, evicting: bool): (Limiter, bool) {
    Take(if evicting then l.(buckets := Evicted(l.buckets, now, ip)) else l, ip, now)
  }

  datatype Call = Call(ip: Id, at: real)

  function Answers(l: Limiter, calls: seq<Call>, evicting: bool): seq<bool>
    decreases |calls|
  {
    if calls == [] then []
    else
      var r := Allow(l, calls[0].ip, calls[0].at, evicting);
      [r.1] + Answers(r.0, calls[1..], evicting)
  }

  function After(l: Limiter, calls: seq<Call>, evicting: bool): Limiter
    decreases |calls|
  {
    if calls == [] then l else After(Allow(l, calls[0].ip, calls[0].at, evicting).0, calls[1..], evicting)
  }

  // The clock never goes back, starting from a given time.
  predicate Nondecreasing(calls: seq<Call>, from: real) {
    calls == [] || (from <= calls[0].at && Nondecreasing(calls[1..], calls[0].at))
  }

  // One request: its bucket, full if new, is refilled up to the capacity for the time passed, and gives a token if it has
  // a whole one. Other buckets stay, but for those idle longer than 120 seconds.
  lemma RequestIs(l: Limiter, ip: Id, now: real, evicting: bool)
    ensures var (m, ok) := Allow(l, ip, now, evicting);
            var found := if ip in l.buckets then l.buckets[ip] else Bucket(l.capacity, now);
            var topped := found.tokens + (now - found.lastRefill) * l.rate;
            var have := if now <= found.lastRefill then found.tokens else if topped > l.capacity then l.capacity else topped;
            && m.capacity == l.capacity && m.rate == l.rate && (ok <==> have >= 1.0)
            && ip in m.buckets && m.buckets[ip] == Bucket(if ok then have - 1.0 else have, if now > found.lastRefill then now else found.lastRefill)
            && (forall x | x in m.buckets && x != ip :: x in l.buckets && m.buckets[x] == l.buckets[x])
            && (forall x | x in l.buckets && x != ip :: x in m.buckets <==> !(evicting && now - l.buckets[x].lastRefill > 120.0))
  {
    RefilledIs(if ip in l.buckets then l.buckets[ip] else Bucket(l.capacity, now), l.capacity, l.rate, now);
  }

  lemma RefilledIs(b: Bucket, capacity: real, rate: real, now: real)
    ensures var topped := b.tokens + (now - b.lastRefill) * rate;
            Refilled(b, capacity, rate, now) ==
              Bucket(if now <= b.lastRefill then b.tokens else if topped > capacity then capacity else topped, if now > b.lastRefill then now else b.lastRefill)
  {
  }

  // ---------- eviction is invisible ----------

  ghost predicate Sane(l: Limiter, now: real) {
    && l.capacity >= 0.0 && l.rate >= 0.0
    && forall ip | ip in l.buckets :: 0.0 <= l.buckets[ip].tokens <= l.capacity && l.buckets[ip].lastRefill <= now
  }

  // A bucket missing from the evicting limiter is, in the other, idle long enough to be full again.
  ghost predicate Agree(l: Limiter, m: Limiter, now: real) {
    && l.capacity == m.capacity && l.rate == m.rate && Sane(m, now)
    && (forall ip | ip in l.buckets :: ip in m.buckets && m.buckets[ip] == l.buckets[ip])
    && (forall ip | ip in m.buckets && ip !in l.buckets :: now - m.buckets[ip].lastRefill > EVICT_AFTER)
  }

  lemma IdleIsFull(tokens: real, elapsed: real, capacity: real, rate: real)
    requires tokens >= 0.0 && rate >= 0.0 && elapsed > EVICT_AFTER && capacity <= rate * EVICT_AFTER
    ensures tokens + elapsed * rate >= capacity
  {
    assert rate * (elapsed - EVICT_AFTER) >= 0.0;
    assert elapsed * rate == rate * EVICT_AFTER + rate * (elapsed - EVICT_AFTER);
  }

  lemma RefillStaysSane(b: Bucket, capacity: real, rate: real, now: real)
    requires 0.0 <= b.tokens <= capacity && rate >= 0.0 && b.lastRefill <= now
    ensures var r := Refilled(b, capacity, rate, now); 0.0 <= r.tokens <= capacity && r.lastRefill == now
  {
    if now > b.lastRefill {
      assert (now - b.lastRefill) * rate >= 0.0;
    }
  }

  lemma TakeStaysSane(l: Limiter, ip: Id, was: real, now: real)
    requires Sane(l, was) && was <= now
    ensures Sane(Take(l, ip, now).0, now)
  {
    if ip in l.buckets {
      RefillStaysSane(l.buckets[ip], l.capacity, l.rate, now);
    }
  }

  lemma SameBucketFor(l: Limiter, m: Limiter, ip: Id, was: real, now: real)
    requires Agree(l, m, was) && was <= now && l.capacity <= l.rate * EVICT_AFTER
    ensures BucketFor(l, ip, now) == BucketFor(m, ip, now)
  {
    if ip in m.buckets && ip !in l.buckets {
      var b := m.buckets[ip];
      IdleIsFull(b.tokens, now - b.lastRefill, m.capacity, m.rate);
    }
  }

  lemma AllowAgrees(l: Limiter, m: Limiter, ip: Id, was: real, now: real)
    requires Agree(l, m, was) && was <= now && l.capacity <= l.rate * EVICT_AFTER
    ensures Allow(l, ip, now, true).1 == Allow(m, ip, now, false).1
    ensures Agree(Allow(l, ip, now, true).0, Allow(m, ip, now, false).0, now)
  {
    var kept := l.(buckets := Evicted(l.buckets, now, ip));
    assert BucketFor(kept, ip, now) == BucketFor(l, ip, now);
    SameBucketFor(l, m, ip, was, now);
    TakeStaysSane(m, ip, was, now);
  }

  lemma {:induction false} AnswersAgree(l: Limiter, m: Limiter, calls: seq<Call>, from: real)
    requires Agree(l, m, from) && Nondecreasing(calls, from) && l.capacity <= l.rate * EVICT_AFTER
    ensures Answers(l, calls, true) == Answers(m, calls, false)
    decreases |calls|
  {
    if calls != [] {
      var ip, at := calls[0].ip, calls[0].at;
      AllowAgrees(l, m, ip, from, at);
      AnswersAgree(Allow(l, ip, at, true).0, Allow(m, ip, at, false).0, calls[1..], at);
    }
  }

  /** Dropping idle buckets changes no answer as long as a bucket refills completely within the idle time,
      for every clock that does not go back and every mix of addresses. */
  lemma EvictionIsInvisible(capacity: real, rate: real, calls: seq<Call>, from: real)
    requires 0.0 <= capacity && 0.0 <= rate && Nondecreasing(calls, from)
    requires capacity <= rate * 120.0
    ensures Answers(Limiter(capacity, rate, map[]), calls, true) == Answers(Limiter(capacity, rate, map[]), calls, false)
  {
    AnswersAgree(Limiter(capacity, rate, map[]), Limiter(capacity, rate, map[]), calls, from);
  }

  // ---------- and visible otherwise ----------

  // n requests from one address at one moment.
  function Burst(ip: Id, at: real, n: nat): seq<Call> {
    if n == 0 then [] else [Call(ip, at)] + Burst(ip, at, n - 1)
  }

  function Count(answers: seq<bool>): nat {
    if answers == [] then 0 else (if answers[0] then 1 else 0) + Count(answers[1..])
  }

  // A burst on a bucket just refilled takes whole tokens as long as there are any.
  lemma {:induction false} BurstDrains(l: Limiter, ip: Id, at: real, n: nat, evicting: bool)
    requires BucketFor(l, ip, at).tokens >= n as real && BucketFor(l, ip, at).lastRefill == at
    ensures Count(Answers(l, Burst(ip, at, n), evicting)) == n
    ensures var m := After(l, Burst(ip, at, n), evicting);
            && m.capacity == l.capacity && m.rate == l.rate
            && (n > 0 ==> ip in m.buckets && m.buckets[ip] == Bucket(BucketFor(l, ip, at).tokens - n as real, at))
    decreases n
  {
    if n > 0 {
      var r := Allow(l, ip, at, evicting);
      assert Burst(ip, at, n)[1..] == Burst(ip, at, n - 1);
      BurstDrains(r.0, ip, at, n - 1, evicting);
      assert Answers(l, Burst(ip, at, n), evicting) == [true] + Answers(r.0, Burst(ip, at, n - 1), evicting);
    }
  }

  // A burst longer than the tokens there are is not all admitted.
  lemma {:induction false} BurstFails(l: Limiter, ip: Id, at: real, n: nat)
    requires n > 0 && BucketFor(l, ip, at).tokens < n as real && BucketFor(l, ip, at).lastRefill == at
    ensures Count(Answers(l, Burst(ip, at, n), false)) < n
    decreases n
  {
    var r := Allow(l, ip, at, false);
    assert Burst(ip, at, n)[1..] == Burst(ip, at, n - 1);
    assert Answers(l, Burst(ip, at, n), false) == [r.1] + Answers(r.0, Burst(ip, at, n - 1), false);
    CountBounded(Answers(r.0, Burst(ip, at, n - 1), false));
    AnswersLength(r.0, Burst(ip, at, n - 1), false);
    BurstLength(ip, at, n - 1);
    if r.1 {
      BurstFails(r.0, ip, at, n - 1);
    }
  }

  lemma {:induction false} CountBounded(a: seq<bool>)
    ensures Count(a) <= |a|
  {
    if a != [] { CountBounded(a[1..]); }
  }

  lemma {:induction false} AnswersLength(l: Limiter, calls: seq<Call>, evicting: bool)
    ensures |Answers(l, calls, evicting)| == |calls|
    decreases |calls|
  {
    if calls != [] { AnswersLength(Allow(l, calls[0].ip, calls[0].at, evicting).0, calls[1..], evicting); }
  }

  lemma {:induction false} BurstLength(ip: Id, at: real, n: nat)
    ensures |Burst(ip, at, n)| == n
  {
    if n > 0 { BurstLength(ip, at, n - 1); }
  }

  lemma {:induction false} AnswersConcat(l: Limiter, a: seq<Call>, b: seq<Call>, evicting: bool)
    ensures Answers(l, a + b, evicting) == Answers(l, a, evicting) + Answers(After(l, a, evicting), b, evicting)
    ensures After(l, a + b, evicting) == After(After(l, a, evicting), b, evicting)
    decreases |a|
  {
    if a == [] {
      assert a + b == b;
    } else {
      assert (a + b)[1..] == a[1..] + b;
      AnswersConcat(Allow(l, a[0].ip, a[0].at, evicting).0, a[1..], b, evicting);
    }
  }

  // One address spends everything, another calls much later, and the first spends again.
  function Exposing(n: nat, later: real): seq<Call> {
    Burst(0, 0.0, n) + ([Call(1, later)] + Burst(0, later, n))
  }

  lemma {:induction false} BurstOrdered(ip: Id, at: real, n: nat, from: real)
    requires from <= at
    ensures Nondecreasing(Burst(ip, at, n), from)
    decreases n
  {
    if n > 0 {
      assert Burst(ip, at, n)[1..] == Burst(ip, at, n - 1);
      BurstOrdered(ip, at, n - 1, at);
    }
  }

  lemma {:induction false} OrderedAfterBurst(ip: Id, at: real, n: nat, from: real, rest: seq<Call>)
    requires from <= at && Nondecreasing(rest, at)
    ensures Nondecreasing(Burst(ip, at, n) + rest, from)
    decreases n
  {
    if n == 0 {
      assert Burst(ip, at, n) + rest == rest;
    } else {
      assert (Burst(ip, at, n) + rest)[1..] == Burst(ip, at, n - 1) + rest;
      OrderedAfterBurst(ip, at, n - 1, at, rest);
    }
  }

  // The limiter after the first burst and the other address's call.
  lemma Spent(n: nat, rate: real, later: real, evicting: bool) returns (l: Limiter)
    requires n > 0 && rate >= 0.0 && later > EVICT_AFTER
    ensures l.capacity == n as real && l.rate == rate
    ensures if evicting then 0 !in l.buckets else 0 in l.buckets && l.buckets[0] == Bucket(0.0, 0.0)
    ensures Answers(Limiter(n as real, rate, map[]), Exposing(n, later), evicting)
            == Answers(Limiter(n as real, rate, map[]), Burst(0, 0.0, n) + [Call(1, later)], evicting) + Answers(l, Burst(0, later, n), evicting)
  {
    var start := Limiter(n as real, rate, map[]);
    BurstDrains(start, 0, 0.0, n, evicting);
    var spent := After(start, Burst(0, 0.0, n), evicting);
    l := Allow(spent, 1, later, evicting).0;
    AnswersConcat(start, Burst(0, 0.0, n), [Call(1, later)], evicting);
    assert After(spent, [Call(1, later)], evicting) == l;
    AnswersConcat(start, Burst(0, 0.0, n) + [Call(1, later)], Burst(0, later, n), evicting);
    assert Exposing(n, later) == (Burst(0, 0.0, n) + [Call(1, later)]) + Burst(0, later, n);
  }

  lemma EvictionShows(n: nat, rate: real, later: real)
    requires n > 0 && rate >= 0.0 && later > EVICT_AFTER && rate * later < n as real
    ensures Nondecreasing(Exposing(n, later), 0.0)
    ensures var l := Limiter(n as real, rate, map[]); Answers(l, Exposing(n, later), true) != Answers(l, Exposing(n, later), false)
  {
    BurstOrdered(0, later, n, later);
    OrderedAfterBurst(0, 0.0, n, 0.0, [Call(1, later)] + Burst(0, later, n));
    var start := Limiter(n as real, rate, map[]);
    var first := Burst(0, 0.0, n) + [Call(1, later)];
    var l := Spent(n, rate, later, true);
    var m := Spent(n, rate, later, false);
    BurstDrains(l, 0, later, n, true);
    BurstFails(m, 0, later, n);
    AnswersLength(start, first, true);
    AnswersLength(start, first, false);
    assert Answers(l, Burst(0, later, n), true) != Answers(m, Burst(0, later, n), false);
    SuffixesDiffer(Answers(start, first, true), Answers(l, Burst(0, later, n), true), Answers(start, first, false), Answers(m, Burst(0, later, n), false));
  }

  lemma SuffixesDiffer(a: seq<bool>, b: seq<bool>, c: seq<bool>, d: seq<bool>)
    requires |a| == |c| && b != d
    ensures a + b != c + d
  {
    assert (a + b)[|a|..] == b && (c + d)[|c|..] == d;
  }

  lemma LaterThanIdle(n: nat, rate: real) returns (later: real)
    requires rate >= 0.0 && rate * EVICT_AFTER < n as real
    ensures later > EVICT_AFTER && rate * later < n as real
  {
    if rate == 0.0 {
      later := EVICT_AFTER + 1.0;
    } else {
      var gap := n as real - rate * EVICT_AFTER;
      later := EVICT_AFTER + gap / (2.0 * rate);
      assert rate * (gap / (2.0 * rate)) == gap / 2.0;
    }
  }

  ghost predicate SameAnswers(capacity: real, rate: real, calls: seq<Call>) {
    Answers(Limiter(capacity, rate, map[]), calls, true) == Answers(Limiter(capacity, rate, map[]), calls, false)
  }

  ghost predicate Invisible(capacity: real, rate: real) {
    forall calls | Nondecreasing(calls, 0.0) :: SameAnswers(capacity, rate, calls)
  }

  /** For a whole number of tokens, eviction is invisible exactly when the bucket refills within the idle
      time. */
  lemma EvictionIsInvisibleIff(n: nat, rate: real)
    requires n > 0 && rate >= 0.0
    ensures Invisible(n as real, rate) <==> n as real <= rate * 120.0
  {
    if n as real <= rate * EVICT_AFTER {
      forall calls | Nondecreasing(calls, 0.0) ensures SameAnswers(n as real, rate, calls) {
        EvictionIsInvisible(n as real, rate, calls, 0.0);
      }
      assert Invisible(n as real, rate);
    } else {
      var later := LaterThanIdle(n, rate);
      EvictionShows(n, rate, later);
      var calls := Exposing(n, later);
      assert Nondecreasing(calls, 0.0) && !SameAnswers(n as real, rate, calls);
      assert !Invisible(n as real, rate);
    }
  }

  // ---------- the rate is bounded ----------

  function Admitted(l: Limiter, ip: Id, calls: seq<Call>, evicting: bool): nat
    decreases |calls|
  {
    if calls == [] then 0
    else
      var r := Allow(l, calls[0].ip, calls[0].at, evicting);
      (if r.1 && calls[0].ip == ip then 1 else 0) + Admitted(r.0, ip, calls[1..], evicting)
  }

  // The tokens an address would find at a moment.
  function Level(l: Limiter, ip: Id, now: real): real {
    BucketFor(l, ip, now).tokens
  }

  // The tokens that come in between two moments.
  function Income(rate: real, from: real, to: real): real {
    rate * (to - from)
  }

  lemma LevelGrowsSlowly(l: Limiter, ip: Id, a: real, b: real)
    requires Sane(l, a) && a <= b
    ensures 0.0 <= Level(l, ip, b) <= l.capacity && Level(l, ip, b) <= Level(l, ip, a) + Income(l.rate, a, b)
  {
    if ip in l.buckets {
    } else {
      assert l.rate * (b - a) >= 0.0;
    }
  }

  lemma Elapsed(rate: real, a: real, b: real, c: real)
    requires rate >= 0.0 && a <= b <= c
    ensures Income(rate, a, c) == Income(rate, a, b) + Income(rate, b, c) && Income(rate, b, c) >= 0.0 && Income(rate, a, b) >= 0.0
  {
  }

  // One request, at a later moment: what it takes is covered by what had come in.
  lemma OneRequestIsPaidFor(l: Limiter, c: Call, ip: Id, from: real)
    requires Sane(l, from) && from <= c.at
    ensures var r := Allow(l, c.ip, c.at, false);
            && Sane(r.0, c.at) && r.0.rate == l.rate && r.0.capacity == l.capacity
            && Level(r.0, ip, c.at) <= Level(l, ip, from) + Income(l.rate, from, c.at) - (if r.1 && c.ip == ip then 1.0 else 0.0)
  {
    TakeStaysSane(l, c.ip, from, c.at);
    LevelGrowsSlowly(l, ip, from, c.at);
  }

  // What is admitted is paid for by the tokens there were and those that came in.
  lemma {:induction false} AdmittedIsPaidFor(l: Limiter, ip: Id, calls: seq<Call>, from: real, to: real, income: real)
    requires Sane(l, from) && from <= to && Nondecreasing(calls, from) && forall c | c in calls :: c.at <= to
    requires income == Income(l.rate, from, to)
    ensures Admitted(l, ip, calls, false) as real <= Level(l, ip, from) + income
    decreases |calls|
  {
    if calls == [] {
      LevelGrowsSlowly(l, ip, from, from);
      Elapsed(l.rate, from, from, to);
    } else {
      var c := calls[0];
      assert c in calls;
      var r := Allow(l, c.ip, c.at, false);
      OneRequestIsPaidFor(l, c, ip, from);
      AdmittedIsPaidFor(r.0, ip, calls[1..], c.at, to, Income(l.rate, c.at, to));
      Elapsed(l.rate, from, c.at, to);
    }
  }

  lemma {:induction false} AdmittedAgrees(l: Limiter, m: Limiter, ip: Id, calls: seq<Call>, from: real)
    requires Agree(l, m, from) && Nondecreasing(calls, from) && l.capacity <= l.rate * EVICT_AFTER
    ensures Admitted(l, ip, calls, true) == Admitted(m, ip, calls, false)
    decreases |calls|
  {
    if calls != [] {
      AllowAgrees(l, m, calls[0].ip, from, calls[0].at);
      AdmittedAgrees(Allow(l, calls[0].ip, calls[0].at, true).0, Allow(m, calls[0].ip, calls[0].at, false).0, ip, calls[1..], calls[0].at);
    }
  }

  lemma {:induction false} AfterAgrees(l: Limiter, m: Limiter, calls: seq<Call>, from: real, to: real)
    requires Agree(l, m, from) && Nondecreasing(calls, from) && l.capacity <= l.rate * EVICT_AFTER
    requires from <= to && forall c | c in calls :: c.at <= to
    ensures Agree(After(l, calls, true), After(m, calls, false), to)
    ensures After(l, calls, true).capacity == l.capacity && After(l, calls, true).rate == l.rate
    decreases |calls|
  {
    if calls != [] {
      var c := calls[0];
      assert c in calls;
      AllowAgrees(l, m, c.ip, from, c.at);
      AfterAgrees(Allow(l, c.ip, c.at, true).0, Allow(m, c.ip, c.at, false).0, calls[1..], c.at, to);
    }
  }

  /** After any past, a window of length T admits at most capacity + rate * T requests of one address. */
  lemma WindowIsBounded(capacity: real, rate: real, ip: Id, past: seq<Call>, window: seq<Call>, start: real, from: real, to: real)
    requires 0.0 <= capacity && 0.0 <= rate && capacity <= rate * 120.0
    requires start <= from <= to && Nondecreasing(past, start) && Nondecreasing(window, from)
    requires (forall c | c in past :: c.at <= from) && (forall c | c in window :: c.at <= to)
    ensures var l := After(Limiter(capacity, rate, map[]), past, true);
            Admitted(l, ip, window, true) as real <= capacity + rate * (to - from)
  {
    var anew := Limiter(capacity, rate, map[]);
    AfterAgrees(anew, anew, past, start, from);
    AgreeingWindow(After(anew, past, true), After(anew, past, false), ip, window, from, to, Income(rate, from, to));
  }

  // ---------- and reached ----------

  // The tokens an address finds at a moment, if all it did since a request of the past, or ever since, was to be paid
  // out of a full bucket and what came in.
  ghost predicate PaidFrom(l: Limiter, ip: Id, past: seq<Call>, at: real, k: nat)
    requires k <= |past|
  {
    var from := if k < |past| then past[k].at else at;
    Level(After(l, past, false), ip, at) == l.capacity + Income(l.rate, from, at) - Admitted(After(l, past[..k], false), ip, past[k..], false) as real
  }

  ghost predicate PaidFromSome(l: Limiter, ip: Id, past: seq<Call>, at: real) {
    exists k: nat :: k <= |past| && PaidFrom(l, ip, past, at, k)
  }

  lemma {:induction false} AdmittedSnoc(l: Limiter, ip: Id, calls: seq<Call>, c: Call, evicting: bool)
    ensures var r := Allow(After(l, calls, evicting), c.ip, c.at, evicting);
            && Admitted(l, ip, calls + [c], evicting) == Admitted(l, ip, calls, evicting) + (if r.1 && c.ip == ip then 1 else 0)
            && After(l, calls + [c], evicting) == r.0
    decreases |calls|
  {
    if calls == [] {
      assert [c][1..] == [];
      assert calls + [c] == [c];
    } else {
      assert (calls + [c])[1..] == calls[1..] + [c];
      AdmittedSnoc(Allow(l, calls[0].ip, calls[0].at, evicting).0, ip, calls[1..], c, evicting);
    }
  }

  // Every prefix of the past leaves a sane limiter with the capacity and rate it had.
  lemma {:induction false} PastIsSane(l: Limiter, calls: seq<Call>, from: real, to: real)
    requires Sane(l, from) && from <= to && Nondecreasing(calls, from) && forall c | c in calls :: c.at <= to
    ensures var m := After(l, calls, false); Sane(m, to) && m.capacity == l.capacity && m.rate == l.rate
    decreases |calls|
  {
    if calls != [] {
      var c := calls[0];
      assert c in calls;
      TakeStaysSane(l, c.ip, from, c.at);
      PastIsSane(Allow(l, c.ip, c.at, false).0, calls[1..], c.at, to);
    }
  }

  lemma {:induction false} OrderedFront(calls: seq<Call>, from: real)
    requires Nondecreasing(calls, from) && calls != []
    ensures var n := |calls| - 1; Nondecreasing(calls[..n], from) && from <= calls[n].at && forall c | c in calls[..n] :: c.at <= calls[n].at
    decreases |calls|
  {
    var n := |calls| - 1;
    if n > 0 {
      OrderedFront(calls[1..], calls[0].at);
      assert calls[..n][1..] == calls[1..][..n - 1] && calls[..n] == [calls[0]] + calls[1..][..n - 1];
    }
  }

  // From one moment to a later one the tokens fill the bucket, or grow by what comes in.
  lemma LevelLater(l: Limiter, ip: Id, a: real, b: real)
    requires Sane(l, a) && a <= b
    ensures Level(l, ip, b) == Min(l.capacity, Level(l, ip, a) + Income(l.rate, a, b))
  {
    if ip in l.buckets {
      var z := l.buckets[ip];
      assert Income(l.rate, z.lastRefill, b) == Income(l.rate, z.lastRefill, a) + Income(l.rate, a, b) by { Elapsed(l.rate, z.lastRefill, a, b); }
      Elapsed(l.rate, z.lastRefill, a, b);
    } else {
      Elapsed(l.rate, a, a, b);
    }
  }

  // The request itself takes a token of its address if there is a whole one, and of no other.
  lemma LevelAfterRequest(l: Limiter, c: Call, ip: Id)
    ensures var r := Allow(l, c.ip, c.at, false);
            Level(r.0, ip, c.at) == Level(l, ip, c.at) - (if r.1 && c.ip == ip then 1.0 else 0.0)
    ensures Allow(l, c.ip, c.at, false).1 <==> Level(l, c.ip, c.at) >= 1.0
  {
  }

  lemma {:induction false} AlwaysPaid(l: Limiter, ip: Id, past: seq<Call>, start: real, at: real)
    requires l.buckets == map[] && l.capacity >= 0.0 && l.rate >= 0.0 && start <= at && Nondecreasing(past, start) && forall c | c in past :: c.at <= at
    ensures PaidFromSome(l, ip, past, at)
    decreases |past|
  {
    if past == [] {
      assert PaidFrom(l, ip, past, at, 0);
    } else {
      var n := |past| - 1;
      var front, c := past[..n], past[n];
      assert past == front + [c] && c in past;
      OrderedFront(past, start);
      AlwaysPaid(l, ip, front, start, c.at);
      var k: nat :| k <= n && PaidFrom(l, ip, front, c.at, k);
      PaidOneMore(l, ip, front, c, start, at, k);
    }
  }

  lemma PaidOneMore(l: Limiter, ip: Id, front: seq<Call>, c: Call, start: real, at: real, k: nat)
    requires l.buckets == map[] && l.capacity >= 0.0 && l.rate >= 0.0 && start <= c.at <= at && Nondecreasing(front, start)
    requires (forall b | b in front :: b.at <= c.at) && k <= |front| && PaidFrom(l, ip, front, c.at, k)
    ensures PaidFromSome(l, ip, front + [c], at)
  {
    var past := front + [c];
    PastIsSane(l, front, start, c.at);
    var m := After(l, front, false);
    AdmittedSnoc(l, ip, front, c, false);
    TakeStaysSane(m, c.ip, c.at, c.at);
    var d := After(l, past, false);
    LevelAfterRequest(m, c, ip);
    LevelLater(d, ip, c.at, at);
    if Level(d, ip, at) == l.capacity {
      assert past[|past|..] == [];
      assert PaidFrom(l, ip, past, at, |past|);
    } else {
      assert past[..k] == front[..k] && past[k..] == front[k..] + [c];
      AfterSplit(l, front, k);
      AdmittedSnoc(After(l, front[..k], false), ip, front[k..], c, false);
      Elapsed(l.rate, past[k].at, c.at, at);
      assert PaidFrom(l, ip, past, at, k);
    }
  }

  lemma AfterSplit(l: Limiter, calls: seq<Call>, k: nat)
    requires k <= |calls|
    ensures After(After(l, calls[..k], false), calls[k..], false) == After(l, calls, false)
  {
    AnswersConcat(l, calls[..k], calls[k..], false);
    assert calls[..k] + calls[k..] == calls;
  }

  // What one more admission would come to, of all from the k-th request of the past on.
  ghost predicate Exceeds(capacity: real, rate: real, ip: Id, past: seq<Call>, at: real, k: nat, evicting: bool)
    requires k <= |past|
  {
    var from := if k < |past| then past[k].at else at;
    Admitted(After(Limiter(capacity, rate, map[]), past[..k], evicting), ip, past[k..], evicting) as real + 1.0 > capacity + Income(rate, from, at)
  }

  ghost predicate ExceedsSome(capacity: real, rate: real, ip: Id, past: seq<Call>, at: real, evicting: bool) {
    exists k: nat :: k <= |past| && Exceeds(capacity, rate, ip, past, at, k, evicting)
  }

  lemma {:induction false} SuffixOrdered(calls: seq<Call>, from: real, k: nat)
    requires k < |calls| && Nondecreasing(calls, from)
    ensures Nondecreasing(calls[k..], calls[k].at) && Nondecreasing(calls[..k], from) && from <= calls[k].at && forall c | c in calls[..k] :: c.at <= calls[k].at
    decreases k
  {
    if k > 0 {
      SuffixOrdered(calls[1..], calls[0].at, k - 1);
      assert calls[1..][k - 1..] == calls[k..] && calls[..k] == [calls[0]] + calls[1..][..k - 1] && calls[..k][1..] == calls[1..][..k - 1];
    }
  }

  // A window that would exceed the bound has left less than one token.
  lemma ExceedingIsRefused(capacity: real, rate: real, ip: Id, past: seq<Call>, start: real, at: real, k: nat)
    requires 0.0 <= capacity && 0.0 <= rate && start <= at && Nondecreasing(past, start) && (forall c | c in past :: c.at <= at)
    requires k <= |past| && Exceeds(capacity, rate, ip, past, at, k, false)
    ensures Level(After(Limiter(capacity, rate, map[]), past, false), ip, at) < 1.0
  {
    var l := Limiter(capacity, rate, map[]);
    if k == |past| {
      assert past[..k] == past && past[k..] == [];
      PastIsSane(l, past, start, at);
      LevelGrowsSlowly(After(l, past, false), ip, at, at);
    } else {
      var from := past[k].at;
      assert past[k] in past;
      SuffixOrdered(past, start, k);
      PastIsSane(l, past[..k], start, from);
      AfterSplit(l, past, k);
      var m := After(l, past[..k], false);
      LevelGrowsSlowly(m, ip, from, from);
      forall c | c in past[k..] ensures c.at <= at {
        assert c in past;
      }
      LevelIsPaid(m, ip, past[k..], from, at, Income(rate, from, at));
    }
  }

  // What is left after a window, at most.
  lemma {:induction false} LevelIsPaid(l: Limiter, ip: Id, calls: seq<Call>, from: real, to: real, income: real)
    requires Sane(l, from) && from <= to && Nondecreasing(calls, from) && forall c | c in calls :: c.at <= to
    requires income == Income(l.rate, from, to)
    ensures Level(After(l, calls, false), ip, to) <= Level(l, ip, from) + income - Admitted(l, ip, calls, false) as real
    decreases |calls|
  {
    if calls == [] {
      LevelGrowsSlowly(l, ip, from, to);
    } else {
      var c := calls[0];
      assert c in calls;
      var r := Allow(l, c.ip, c.at, false);
      OneRequestIsPaidFor(l, c, ip, from);
      LevelIsPaid(r.0, ip, calls[1..], c.at, to, Income(l.rate, c.at, to));
      Elapsed(l.rate, from, c.at, to);
    }
  }

  lemma RefusedUnlessPaid(capacity: real, rate: real, ip: Id, past: seq<Call>, start: real, at: real)
    requires 0.0 <= capacity && 0.0 <= rate && start <= at && Nondecreasing(past, start) && (forall c | c in past :: c.at <= at)
    ensures !Allow(After(Limiter(capacity, rate, map[]), past, false), ip, at, false).1 <==> ExceedsSome(capacity, rate, ip, past, at, false)
  {
    var l := Limiter(capacity, rate, map[]);
    LevelAfterRequest(After(l, past, false), Call(ip, at), ip);
    AlwaysPaid(l, ip, past, start, at);
    var k: nat :| k <= |past| && PaidFrom(l, ip, past, at, k);
    if Level(After(l, past, false), ip, at) < 1.0 { assert Exceeds(capacity, rate, ip, past, at, k, false); }
    if ExceedsSome(capacity, rate, ip, past, at, false) {
      var j: nat :| j <= |past| && Exceeds(capacity, rate, ip, past, at, j, false);
      ExceedingIsRefused(capacity, rate, ip, past, start, at, j);
    }
  }

  lemma ExceedsAgrees(capacity: real, rate: real, ip: Id, past: seq<Call>, start: real, at: real, k: nat)
    requires 0.0 <= capacity && 0.0 <= rate && capacity <= rate * EVICT_AFTER && start <= at && Nondecreasing(past, start) && (forall c | c in past :: c.at <= at)
    requires k <= |past|
    ensures Exceeds(capacity, rate, ip, past, at, k, true) <==> Exceeds(capacity, rate, ip, past, at, k, false)
  {
    var l := Limiter(capacity, rate, map[]);
    if k < |past| {
      assert past[k] in past;
      SuffixOrdered(past, start, k);
      AfterAgrees(l, l, past[..k], start, past[k].at);
      AdmittedAgrees(After(l, past[..k], true), After(l, past[..k], false), ip, past[k..], past[k].at);
    }
  }

  /** A request is refused if and only if admitting it would break the bound: after any past, the address has been
      admitted so often, from some request of the past on, that one more is more than capacity + rate * T. */
  lemma RefusedIff(capacity: real, rate: real, ip: Id, past: seq<Call>, start: real, at: real)
    requires 0.0 <= capacity && 0.0 <= rate && capacity <= rate * 120.0
    requires start <= at && Nondecreasing(past, start) && (forall c | c in past :: c.at <= at)
    ensures !Allow(After(Limiter(capacity, rate, map[]), past, true), ip, at, true).1 <==> ExceedsSome(capacity, rate, ip, past, at, true)
  {
    var l := Limiter(capacity, rate, map[]);
    AfterAgrees(l, l, past, start, at);
    AllowAgrees(After(l, past, true), After(l, past, false), ip, at, at);
    RefusedUnlessPaid(capacity, rate, ip, past, start, at);
    forall k: nat | k <= |past| ensures Exceeds(capacity, rate, ip, past, at, k, true) <==> Exceeds(capacity, rate, ip, past, at, k, false) {
      ExceedsAgrees(capacity, rate, ip, past, start, at, k);
    }
    if ExceedsSome(capacity, rate, ip, past, at, false) {
      var k: nat :| k <= |past| && Exceeds(capacity, rate, ip, past, at, k, false);
      assert Exceeds(capacity, rate, ip, past, at, k, true);
    }
    if ExceedsSome(capacity, rate, ip, past, at, true) {
      var k: nat :| k <= |past| && Exceeds(capacity, rate, ip, past, at, k, true);
      assert Exceeds(capacity, rate, ip, past, at, k, false);
    }
  }

  // The requests that were admitted.
  function Paying(l: Limiter, calls: seq<Call>, evicting: bool): seq<Call>
    decreases |calls|
  {
    if calls == [] then []
    else
      var r := Allow(l, calls[0].ip, calls[0].at, evicting);
      (if r.1 then [calls[0]] else []) + Paying(r.0, calls[1..], evicting)
  }

  // Every address finds the same in both.
  ghost predicate Alike(l: Limiter, m: Limiter, now: real) {
    && l.capacity == m.capacity && l.rate == m.rate && Sane(l, now) && Sane(m, now)
    && forall ip :: Level(l, ip, now) == Level(m, ip, now)
  }

  lemma AlikeLater(l: Limiter, m: Limiter, a: real, b: real)
    requires Alike(l, m, a) && a <= b
    ensures Alike(l, m, b)
  {
    forall ip ensures Level(l, ip, b) == Level(m, ip, b) {
      LevelLater(l, ip, a, b);
      LevelLater(m, ip, a, b);
    }
  }

  lemma AlikeAfterRequest(l: Limiter, m: Limiter, c: Call)
    requires Alike(l, m, c.at)
    ensures var r, q := Allow(l, c.ip, c.at, false), Allow(m, c.ip, c.at, false);
            r.1 == q.1 && Alike(r.0, q.0, c.at) && (!r.1 ==> Alike(r.0, m, c.at))
  {
    var r, q := Allow(l, c.ip, c.at, false), Allow(m, c.ip, c.at, false);
    TakeStaysSane(l, c.ip, c.at, c.at);
    TakeStaysSane(m, c.ip, c.at, c.at);
    LevelAfterRequest(l, c, c.ip);
    LevelAfterRequest(m, c, c.ip);
    forall ip ensures Level(r.0, ip, c.at) == Level(q.0, ip, c.at) && (!r.1 ==> Level(r.0, ip, c.at) == Level(m, ip, c.at)) {
      LevelAfterRequest(l, c, ip);
      LevelAfterRequest(m, c, ip);
    }
  }

  lemma {:induction false} PayingIsAlike(l: Limiter, m: Limiter, calls: seq<Call>, from: real, to: real)
    requires Alike(l, m, from) && from <= to && Nondecreasing(calls, from) && forall c | c in calls :: c.at <= to
    ensures Alike(After(l, calls, false), After(m, Paying(l, calls, false), false), to)
    ensures Nondecreasing(Paying(l, calls, false), from) && forall c | c in Paying(l, calls, false) :: c in calls
    decreases |calls|
  {
    if calls == [] {
      AlikeLater(l, m, from, to);
    } else {
      var c := calls[0];
      assert c in calls;
      AlikeLater(l, m, from, c.at);
      AlikeAfterRequest(l, m, c);
      var r := Allow(l, c.ip, c.at, false);
      PayingIsAlike(r.0, if r.1 then Allow(m, c.ip, c.at, false).0 else m, calls[1..], c.at, to);
      var rest := Paying(r.0, calls[1..], false);
      if r.1 {
        assert ([c] + rest)[1..] == rest;
      } else {
        assert [] + rest == rest;
        EarlierIsOrdered(rest, from, c.at);
      }
    }
  }

  lemma EarlierIsOrdered(calls: seq<Call>, from: real, later: real)
    requires from <= later && Nondecreasing(calls, later)
    ensures Nondecreasing(calls, from)
  {
  }

  lemma {:induction false} PayingAgrees(l: Limiter, m: Limiter, calls: seq<Call>, from: real)
    requires Agree(l, m, from) && Nondecreasing(calls, from) && l.capacity <= l.rate * EVICT_AFTER
    ensures Paying(l, calls, true) == Paying(m, calls, false)
    decreases |calls|
  {
    if calls != [] {
      AllowAgrees(l, m, calls[0].ip, from, calls[0].at);
      PayingAgrees(Allow(l, calls[0].ip, calls[0].at, true).0, Allow(m, calls[0].ip, calls[0].at, false).0, calls[1..], calls[0].at);
    }
  }

  /** A refused request costs nothing: what a request is answered is what it would be if only the admitted ones had
      been made before. */
  lemma RefusalsAreForgotten(capacity: real, rate: real, ip: Id, past: seq<Call>, start: real, at: real)
    requires 0.0 <= capacity && 0.0 <= rate && capacity <= rate * 120.0
    requires start <= at && Nondecreasing(past, start) && (forall c | c in past :: c.at <= at)
    ensures var l := Limiter(capacity, rate, map[]);
            Allow(After(l, past, true), ip, at, true).1 == Allow(After(l, Paying(l, past, true), true), ip, at, true).1
  {
    var l := Limiter(capacity, rate, map[]);
    PayingAgrees(l, l, past, start);
    PayingIsAlike(l, l, past, start, at);
    var paying := Paying(l, past, false);
    AfterAgrees(l, l, past, start, at);
    AfterAgrees(l, l, paying, start, at);
    AllowAgrees(After(l, past, true), After(l, past, false), ip, at, at);
    AllowAgrees(After(l, paying, true), After(l, paying, false), ip, at, at);
    AlikeAfterRequest(After(l, past, false), After(l, paying, false), Call(ip, at));
  }

  // When the address calls next.
  function NextAt(ip: Id, calls: seq<Call>, at: real): real {
    if calls == [] then at else if calls[0].ip == ip then calls[0].at else NextAt(ip, calls[1..], at)
  }

  // Between any two requests of the address, and after its last one, a whole token comes in.
  predicate FarApart(rate: real, ip: Id, calls: seq<Call>, at: real) {
    calls == [] || (FarApart(rate, ip, calls[1..], at) && (calls[0].ip == ip ==> Income(rate, calls[0].at, NextAt(ip, calls[1..], at)) >= 1.0))
  }

  // Every request of the address leaves time for a whole token before each later one, and before the given time.
  ghost predicate Spread(rate: real, ip: Id, calls: seq<Call>, at: real) {
    && (forall i | 0 <= i < |calls| && calls[i].ip == ip :: Income(rate, calls[i].at, at) >= 1.0)
    && (forall i, j | 0 <= i < j < |calls| && calls[i].ip == ip && calls[j].ip == ip :: Income(rate, calls[i].at, calls[j].at) >= 1.0)
  }

  lemma {:induction false} SpreadIsFarApart(rate: real, ip: Id, calls: seq<Call>, at: real)
    requires Spread(rate, ip, calls, at)
    ensures FarApart(rate, ip, calls, at)
    ensures NextAt(ip, calls, at) == at || exists j :: 0 <= j < |calls| && calls[j].ip == ip && calls[j].at == NextAt(ip, calls, at)
  {
    if calls != [] {
      var rest := calls[1..];
      SpreadIsFarApart(rate, ip, rest, at);
      var next := NextAt(ip, rest, at);
      if next == at {
        assert calls[0].ip == ip ==> Income(rate, calls[0].at, at) >= 1.0;
      } else {
        var j :| 0 <= j < |rest| && rest[j].ip == ip && rest[j].at == next;
        assert calls[j + 1] == rest[j];
        assert calls[0].ip == ip ==> Income(rate, calls[0].at, calls[j + 1].at) >= 1.0;
      }
    }
  }

  lemma {:induction false} SuffixFarApart(rate: real, ip: Id, calls: seq<Call>, at: real, k: nat)
    requires k <= |calls| && FarApart(rate, ip, calls, at)
    ensures FarApart(rate, ip, calls[k..], at)
    decreases k
  {
    if k > 0 {
      SuffixFarApart(rate, ip, calls[1..], at, k - 1);
      assert calls[1..][k - 1..] == calls[k..];
    }
  }

  lemma {:induction false} FewAdmitted(l: Limiter, rate: real, ip: Id, calls: seq<Call>, from: real, at: real)
    requires 0.0 <= rate && FarApart(rate, ip, calls, at) && Nondecreasing(calls, from) && from <= at && forall c | c in calls :: c.at <= at
    ensures from <= NextAt(ip, calls, at) && NextAt(ip, calls, at) <= at && Admitted(l, ip, calls, true) as real <= Income(rate, NextAt(ip, calls, at), at)
    decreases |calls|
  {
    if calls != [] {
      var c := calls[0];
      assert c in calls;
      FewAdmitted(Allow(l, c.ip, c.at, true).0, rate, ip, calls[1..], c.at, at);
      Elapsed(rate, c.at, NextAt(ip, calls[1..], at), at);
    } else {
      Elapsed(rate, at, at, at);
    }
  }

  lemma FewInWindow(capacity: real, rate: real, ip: Id, past: seq<Call>, start: real, at: real, k: nat)
    requires 1.0 <= capacity && 0.0 <= rate && k <= |past| && FarApart(rate, ip, past, at)
    requires start <= at && Nondecreasing(past, start) && forall c | c in past :: c.at <= at
    ensures !Exceeds(capacity, rate, ip, past, at, k, true)
  {
    if k < |past| {
      assert past[k] in past;
      SuffixOrdered(past, start, k);
      SuffixFarApart(rate, ip, past, at, k);
      FewAdmitted(After(Limiter(capacity, rate, map[]), past[..k], true), rate, ip, past[k..], past[k].at, at);
      Elapsed(rate, past[k].at, NextAt(ip, past[k..], at), at);
    } else {
      assert past[k..] == [];
    }
  }

  /** An address that leaves time for one token between its requests is always admitted. */
  lemma FarApartIsAdmitted(capacity: real, rate: real, ip: Id, past: seq<Call>, start: real, at: real)
    requires 1.0 <= capacity && 0.0 <= rate && capacity <= rate * 120.0
    requires start <= at && Nondecreasing(past, start) && (forall c | c in past :: c.at <= at) && Spread(rate, ip, past, at)
    ensures Allow(After(Limiter(capacity, rate, map[]), past, true), ip, at, true).1
  {
    SpreadIsFarApart(rate, ip, past, at);
    RefusedIff(capacity, rate, ip, past, start, at);
    forall k: nat | k <= |past| ensures !Exceeds(capacity, rate, ip, past, at, k, true) {
      FewInWindow(capacity, rate, ip, past, start, at, k);
    }
  }

  // The settings in use: thirty tokens, half a token a second. Eviction shows in no answer, and any minute
  // admits at most sixty requests of one address.
  lemma SettingsInUse(ip: Id, past: seq<Call>, window: seq<Call>, start: real, from: real)
    requires start <= from && Nondecreasing(past, start) && Nondecreasing(window, from)
    requires (forall c | c in past :: c.at <= from) && (forall c | c in window :: c.at <= from + 60.0)
    ensures Invisible(30.0, 0.5)
    ensures Admitted(After(Limiter(30.0, 0.5, map[]), past, true), ip, window, true) <= 60
  {
    EvictionIsInvisibleIff(30, 0.5);
    AnyMinute(ip, past, window, start, from);
  }

  lemma AnyMinute(ip: Id, past: seq<Call>, window: seq<Call>, start: real, from: real)
    requires start <= from && Nondecreasing(past, start) && Nondecreasing(window, from)
    requires (forall c | c in past :: c.at <= from) && (forall c | c in window :: c.at <= from + 60.0)
    ensures Admitted(After(Limiter(30.0, 0.5, map[]), past, true), ip, window, true) <= 60
  {
    var n := Admitted(After(Limiter(30.0, 0.5, map[]), past, true), ip, window, true);
    assert n as real <= 60.0 by { WindowIsBounded(30.0, 0.5, ip, past, window, start, from, from + 60.0); }
  }

  lemma AgreeingWindow(l: Limiter, m: Limiter, ip: Id, window: seq<Call>, from: real, to: real, income: real)
    requires Agree(l, m, from) && l.capacity <= l.rate * EVICT_AFTER && from <= to && Nondecreasing(window, from)
    requires (forall c | c in window :: c.at <= to) && income == Income(l.rate, from, to)
    ensures Admitted(l, ip, window, true) as real <= l.capacity + income
  {
    AdmittedAgrees(l, m, ip, window, from);
    AdmittedIsPaidFor(m, ip, window, from, to, income);
    LevelGrowsSlowly(m, ip, from, from);
  }

  // ---------- the limiter ----------

  class IPRateLimiter {
    var buckets: map<Id, Bucket>
    const capacity: real
    const rate: real

    constructor (capacity: real, rate: real)
      ensures this.capacity == capacity && this.rate == rate && buckets == map[]
    {
      this.capacity, this.rate := capacity, rate;
      buckets := map[];
    }

    method EvictIdleBuckets(now: real, keep: Id)
      modifies this`buckets
      ensures buckets == Evicted(old(buckets), now, keep)
    {
      var rest := buckets.Keys;
      while rest != {}
        invariant rest <= buckets.Keys <= old(buckets).Keys
        invariant forall ip | ip in buckets :: buckets[ip] == old(buckets)[ip]
        invariant forall ip | ip in old(buckets) && ip !in rest ::
                    ip in buckets <==> ip == keep || now - old(buckets)[ip].lastRefill <= EVICT_AFTER
        decreases rest
      {
        var ip :| ip in rest;
        if ip != keep && now - buckets[ip].lastRefill > EVICT_AFTER {
          buckets := buckets - {ip};
        }
        rest := rest - {ip};
      }
    }

    method Request(ip: Id, now: real) returns (allowed: bool)
      modifies this`buckets
      ensures (Limiter(capacity, rate, buckets), allowed) == Allow(Limiter(capacity, rate, old(buckets)), ip, now, true)
    {
      EvictIdleBuckets(now, ip);
      ghost var kept := Limiter(capacity, rate, buckets);
      var b: Bucket;
      if ip !in buckets {
        b := Bucket(capacity, now);
      } else {
        b := buckets[ip];
        var elapsed := now - b.lastRefill;
        if elapsed > 0.0 {
          var tokens := b.tokens + elapsed * rate;
          if tokens > capacity { tokens := capacity; }
          b := Bucket(tokens, now);
        }
      }
      assert b == BucketFor(kept, ip, now);
      if b.tokens < 1.0 {
        buckets := buckets[ip := b];
        return false;
      }
      buckets := buckets[ip := b.(tokens := b.tokens - 1.0)];
      return true;
    }
  }
}
