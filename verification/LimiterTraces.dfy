/**
 Whole runs of the rate limiter: interleaved IPs, denied requests and cleanup
 passes at arbitrary times.
 */
module LimiterTraces {
  import opened Wrappers
  import opened TokenBucket
  import opened AdmissionLaw

  // ---- Isolation ----

  /** The answers given to one IP, in order. */
  function AnswersTo(os: seq<Outcome>, ip: string): seq<bool>
    decreases |os|
  {
    if os == [] then []
    else (if os[0].ip == ip then [os[0].ok] else []) + AnswersTo(os[1..], ip)
  }

  /** What concerns one IP: its own requests, and every cleanup pass. */
  function Own(evs: seq<Event>, ip: string): seq<Event>
    decreases |evs|
  {
    if evs == [] then []
    else (if evs[0].Request? && evs[0].ip != ip then [] else [evs[0]]) + Own(evs[1..], ip)
  }

  /** Isolation: other IPs' requests, however many and wherever interleaved, change nothing. */
  lemma {:induction false} Isolation(c: Config, m: Table, own: Table, evs: seq<Event>, ip: string)
    requires Lookup(m, ip) == Lookup(own, ip)
    ensures AnswersTo(Outcomes(c, m, evs), ip) == AnswersTo(Outcomes(c, own, Own(evs, ip)), ip)
    decreases |evs|
  {
    if evs != [] {
      var e := evs[0];
      var rest := Own(evs[1..], ip);
      Isolation(c, Next(c, m, e), if e.Request? && e.ip != ip then own else Next(c, own, e), evs[1..], ip);
      if !(e.Request? && e.ip != ip) {
        assert ([e] + rest)[1..] == rest;
      } else {
        assert [] + rest == rest;
      }
      var os, os' := Outcomes(c, Next(c, m, e), evs[1..]), Outcomes(c, Next(c, own, e), rest);
      assert (Emitted(c, m, e) + os)[|Emitted(c, m, e)|..] == os;
      assert (Emitted(c, own, e) + os')[|Emitted(c, own, e)|..] == os';
    }
  }

  /** The times at which one IP asks. */
  function Times(evs: seq<Event>, ip: string): seq<real>
    decreases |evs|
  {
    if evs == [] then []
    else (if evs[0].Request? && evs[0].ip == ip then [evs[0].now] else []) + Times(evs[1..], ip)
  }

  ghost predicate AllRequests(evs: seq<Event>) {
    forall e :: e in evs ==> e.Request?
  }

  /** Without cleanup passes an IP gets the answers of a single bucket run on its own times. */
  lemma {:induction false} OneBucketEach(c: Config, m: Table, evs: seq<Event>, ip: string)
    requires AllRequests(evs)
    ensures AnswersTo(Outcomes(c, m, evs), ip) == Decide(c, Lookup(m, ip), Times(evs, ip))
    decreases |evs|
  {
    if evs != [] {
      var e := evs[0];
      var m' := Next(c, m, e);
      OneBucketEach(c, m', evs[1..], ip);
      assert (Emitted(c, m, e) + Outcomes(c, m', evs[1..]))[1..] == Outcomes(c, m', evs[1..]);
      if e.ip == ip {
        assert ([e.now] + Times(evs[1..], ip))[1..] == Times(evs[1..], ip);
      } else {
        assert [] + Times(evs[1..], ip) == Times(evs[1..], ip);
      }
    }
  }

  // ---- Denied requests are free ----

  /** The elements of `xs` whose mask bit is set. */
  function Select<T>(xs: seq<T>, mask: seq<bool>): seq<T>
    requires |mask| == |xs|
  {
    if xs == [] then [] else (if mask[0] then [xs[0]] else []) + Select(xs[1..], mask[1..])
  }

  /** What the limiter says at each event: one answer to a request, nothing at a cleanup pass. */
  function Replies(c: Config, m: Table, evs: seq<Event>): (rs: seq<seq<Outcome>>)
    ensures |rs| == |evs|
    decreases |evs|
  {
    if evs == [] then [] else [Emitted(c, m, evs[0])] + Replies(c, Next(c, m, evs[0]), evs[1..])
  }

  predicate Passed(reply: seq<Outcome>) {
    reply != [] && reply[0].ok
  }

  predicate Denied(reply: seq<Outcome>) {
    reply != [] && !reply[0].ok
  }

  function Flatten(rs: seq<seq<Outcome>>): seq<Outcome> {
    if rs == [] then [] else rs[0] + Flatten(rs[1..])
  }

  lemma {:induction false} FlattenReplies(c: Config, m: Table, evs: seq<Event>)
    ensures Flatten(Replies(c, m, evs)) == Outcomes(c, m, evs)
    decreases |evs|
  {
    if evs != [] {
      FlattenReplies(c, Next(c, m, evs[0]), evs[1..]);
    }
  }

  lemma {:induction false} RepliesOnly(c: Config, m: Table, evs: seq<Event>)
    ensures forall i :: 0 <= i < |evs| ==> (Replies(c, m, evs)[i] == [] <==> evs[i].Cleanup?)
    decreases |evs|
  {
    if evs != [] {
      RepliesOnly(c, Next(c, m, evs[0]), evs[1..]);
      forall i | 0 <= i < |evs|
        ensures Replies(c, m, evs)[i] == [] <==> evs[i].Cleanup?
      {
        if i > 0 {
          assert evs[i] == evs[1..][i - 1];
        }
      }
    }
  }

  lemma {:induction false} OneOutcomeEach(c: Config, m: Table, evs: seq<Event>)
    requires AllRequests(evs)
    ensures |Outcomes(c, m, evs)| == |evs|
    decreases |evs|
  {
    if evs != [] {
      OneOutcomeEach(c, Next(c, m, evs[0]), evs[1..]);
    }
  }

  /** What a bucket will do depends only on where its refill line crosses time zero. */
  function Origin(c: Config, b: Bucket): real {
    b.tokens - b.lastRef * c.rate as real
  }

  lemma OriginDetermines(c: Config, b: Bucket, now: real)
    ensures Refilled(c, b, now) == Capped(c.burst as real, Origin(c, b) + now * c.rate as real)
  {
    assert Gain(c, b.lastRef, now) == now * c.rate as real - b.lastRef * c.rate as real;
  }

  /** Two tables that no sequence of requests can tell apart. */
  ghost predicate Alike(c: Config, m: Table, k: Table) {
    && m.Keys == k.Keys
    && forall ip :: ip in m ==> c.burst < 1 || Origin(c, m[ip]) == Origin(c, k[ip])
  }

  lemma AlikeAnswer(c: Config, m: Table, k: Table, ip: string, now: real)
    requires Alike(c, m, k)
    ensures Admits(c, Lookup(m, ip), now) == Admits(c, Lookup(k, ip), now)
    ensures Alike(c, Next(c, m, Request(ip, now)), Next(c, k, Request(ip, now)))
  {
    if ip in m {
      OriginDetermines(c, m[ip], now);
      OriginDetermines(c, k[ip], now);
    }
  }

  lemma DeniedKeepsOrigin(c: Config, b: Bucket, now: real)
    requires c.burst >= 1 && Refilled(c, b, now) < 1.0
    ensures Origin(c, Touch(c, Some(b), now)) == Origin(c, b)
  {
    OriginDetermines(c, b, now);
  }

  lemma DeniedKeepsAlike(c: Config, m: Table, k: Table, ip: string, now: real)
    requires Alike(c, m, k) && !Admits(c, Lookup(m, ip), now)
    ensures Alike(c, Next(c, m, Request(ip, now)), k)
  {
    if c.burst >= 1 {
      DeniedKeepsOrigin(c, m[ip], now);
    }
  }

  /** Deleting any denied requests from a trace leaves every other answer as it was. */
  lemma {:induction false} DeniedAreFree(c: Config, m: Table, k: Table, evs: seq<Event>, mask: seq<bool>)
    requires AllRequests(evs) && |mask| == |evs| == |Outcomes(c, m, evs)| && Alike(c, m, k)
    requires forall i :: 0 <= i < |evs| && !mask[i] ==> !Outcomes(c, m, evs)[i].ok
    ensures Outcomes(c, k, Select(evs, mask)) == Select(Outcomes(c, m, evs), mask)
    decreases |evs|
  {
    if evs != [] {
      var e := evs[0];
      var os, m' := Outcomes(c, m, evs), Next(c, m, e);
      assert os[1..] == Outcomes(c, m', evs[1..]);
      forall i | 0 <= i < |evs| - 1 && !mask[1..][i]
        ensures !Outcomes(c, m', evs[1..])[i].ok
      {
        assert os[i + 1] == Outcomes(c, m', evs[1..])[i];
      }
      var rest := Select(evs[1..], mask[1..]);
      if mask[0] {
        AlikeAnswer(c, m, k, e.ip, e.now);
        DeniedAreFree(c, m', Next(c, k, e), evs[1..], mask[1..]);
        assert ([e] + rest)[1..] == rest;
      } else {
        DeniedKeepsAlike(c, m, k, e.ip, e.now);
        DeniedAreFree(c, m', k, evs[1..], mask[1..]);
        assert [] + rest == rest;
      }
    }
  }

  /** The same for a limiter that starts empty: on requests alone, whatever the configuration and the order. */
  lemma DeniedRequestsAreFree(c: Config, evs: seq<Event>, mask: seq<bool>)
    requires AllRequests(evs) && |mask| == |evs|
    requires forall i :: 0 <= i < |evs| && i < |Outcomes(c, map[], evs)| && !mask[i] ==> !Outcomes(c, map[], evs)[i].ok
    ensures |Outcomes(c, map[], evs)| == |evs|
    ensures Outcomes(c, map[], Select(evs, mask)) == Select(Outcomes(c, map[], evs), mask)
  {
    OneOutcomeEach(c, map[], evs);
    DeniedAreFree(c, map[], map[], evs, mask);
  }

  // ---- Eviction ----

  ghost predicate Nondecreasing(evs: seq<Event>) {
    forall i, j :: 0 <= i <= j < |evs| ==> evs[i].now <= evs[j].now
  }

  function WithoutCleanup(evs: seq<Event>): seq<Event>
    decreases |evs|
  {
    if evs == [] then []
    else (if evs[0].Request? then [evs[0]] else []) + WithoutCleanup(evs[1..])
  }

  ghost predicate WideWindow(c: Config) {
    c.burst >= 1 && c.rate * 300 >= c.burst
  }

  /** Buckets seen by time `now` hold between zero and burst tokens. */
  ghost predicate Settled(c: Config, m: Table, now: real) {
    forall ip :: ip in m ==> 0.0 <= m[ip].tokens && m[ip].lastRef <= now
  }

  /** Two tables in which every IP finds the same tokens at any time from `now` on. */
  ghost predicate SameSupply(c: Config, m: Table, k: Table, now: real) {
    forall ip: string, t: real :: now <= t ==> Available(c, Lookup(m, ip), t) == Available(c, Lookup(k, ip), t)
  }

  lemma GainSplits(c: Config, from: real, mid: real, to: real)
    ensures Gain(c, from, to) == Gain(c, from, mid) + Gain(c, mid, to)
  {
    assert (to - from) * c.rate as real == (mid - from) * c.rate as real + (to - mid) * c.rate as real;
  }

  lemma FullStaysFull(c: Config, b: Bucket, now: real, later: real)
    requires c.rate >= 0 && now <= later && Refilled(c, b, now) == c.burst as real
    ensures Refilled(c, b, later) == c.burst as real
  {
    GainSplits(c, b.lastRef, now, later);
    GainNonNegative(c, now, later);
  }

  lemma StaleIsFull(c: Config, b: Bucket, now: real)
    requires WideWindow(c) && Stale(b, now) && b.tokens >= 0.0
    ensures Refilled(c, b, now) == c.burst as real
  {
    var mid := b.lastRef + 300.0;
    GainSplits(c, b.lastRef, mid, now);
    GainNonNegative(c, mid, now);
    assert Gain(c, b.lastRef, mid) == (c.rate * 300) as real;
  }

  lemma SettledNext(c: Config, m: Table, e: Event, before: real)
    requires c.burst >= 1 && c.rate >= 0 && Settled(c, m, before) && before <= e.now
    ensures Settled(c, Next(c, m, e), e.now)
  {
    if e.Request? && e.ip in m {
      GainNonNegative(c, m[e.ip].lastRef, e.now);
    }
  }

  /** A pass takes away only buckets that are full, and a first request finds a full one. */
  lemma SweptKeepsSupply(c: Config, m: Table, now: real)
    requires WideWindow(c) && Settled(c, m, now)
    ensures SameSupply(c, m, Swept(m, now), now)
  {
    forall ip: string, t: real | now <= t
      ensures Available(c, Lookup(m, ip), t) == Available(c, Lookup(Swept(m, now), ip), t)
    {
      if ip in m && Stale(m[ip], now) {
        StaleIsFull(c, m[ip], now);
        FullStaysFull(c, m[ip], now, t);
      }
    }
  }

  /** A denied request takes away nothing. */
  lemma DeniedKeepsSupply(c: Config, m: Table, ip: string, now: real)
    requires c.burst >= 1 && !Admits(c, Lookup(m, ip), now)
    ensures SameSupply(c, m, Next(c, m, Request(ip, now)), now)
  {
    forall t: real | now <= t
      ensures Refilled(c, m[ip], t) == Refilled(c, Touch(c, Some(m[ip]), now), t)
    {
      GainSplits(c, m[ip].lastRef, now, t);
    }
  }

  lemma SupplyAnswers(c: Config, m: Table, k: Table, ip: string, now: real)
    requires c.burst >= 1 && SameSupply(c, m, k, now)
    ensures Admits(c, Lookup(m, ip), now) == Admits(c, Lookup(k, ip), now)
    ensures SameSupply(c, Next(c, m, Request(ip, now)), Next(c, k, Request(ip, now)), now)
  {
    assert Available(c, Lookup(m, ip), now) == Available(c, Lookup(k, ip), now);
    var m', k' := Next(c, m, Request(ip, now)), Next(c, k, Request(ip, now));
    forall x: string, t: real | now <= t
      ensures Available(c, Lookup(m', x), t) == Available(c, Lookup(k', x), t)
    {
      assert Available(c, Lookup(m, x), t) == Available(c, Lookup(k, x), t);
    }
  }

  /** Kept on both sides, or dropped from the second: an event leaves the tables with the same supply. */
  lemma SupplyNext(c: Config, m: Table, k: Table, e: Event, kept: bool)
    requires WideWindow(c) && SameSupply(c, m, k, e.now) && Settled(c, m, e.now) && Settled(c, k, e.now)
    requires !kept ==> !Passed(Emitted(c, m, e))
    ensures kept ==> Emitted(c, m, e) == Emitted(c, k, e)
    ensures SameSupply(c, Next(c, m, e), if kept then Next(c, k, e) else k, e.now)
  {
    if e.Request? {
      if kept {
        SupplyAnswers(c, m, k, e.ip, e.now);
      } else {
        DeniedKeepsSupply(c, m, e.ip, e.now);
      }
    } else {
      SweptKeepsSupply(c, m, e.now);
      SweptKeepsSupply(c, k, e.now);
    }
  }

  /**
   Cleanup passes and denied requests, any of them or all, can be taken out of a
   trace without changing the reply to any event that is left in.
   */
  lemma {:induction false} DropsAreFreeFrom(c: Config, m: Table, k: Table,
                                            evs: seq<Event>, mask: seq<bool>, before: real)
    requires WideWindow(c) && Nondecreasing(evs) && (evs != [] ==> before <= evs[0].now) && |mask| == |evs|
    requires Settled(c, m, before) && Settled(c, k, before) && SameSupply(c, m, k, before)
    requires forall i :: 0 <= i < |evs| && !mask[i] ==> !Passed(Replies(c, m, evs)[i])
    ensures Replies(c, k, Select(evs, mask)) == Select(Replies(c, m, evs), mask)
    decreases |evs|
  {
    if evs != [] {
      var e, rs := evs[0], Replies(c, m, evs);
      var m' := Next(c, m, e);
      var k' := if mask[0] then Next(c, k, e) else k;
      var rest := Select(evs[1..], mask[1..]);
      assert rs[0] == Emitted(c, m, e) && rs[1..] == Replies(c, m', evs[1..]);
      SettledNext(c, m, e, before);
      SettledNext(c, k, e, before);
      SupplyNext(c, m, k, e, mask[0]);
      forall i | 0 <= i < |evs| - 1 && !mask[1..][i]
        ensures !Passed(Replies(c, m', evs[1..])[i])
      {
        assert rs[i + 1] == Replies(c, m', evs[1..])[i];
      }
      DropsAreFreeFrom(c, m', k', evs[1..], mask[1..], e.now);
      if mask[0] {
        assert ([e] + rest)[1..] == rest;
      } else {
        assert [] + rest == rest;
      }
    }
  }

  /** The same for a limiter that starts empty. */
  lemma DropsAreFree(c: Config, evs: seq<Event>, mask: seq<bool>)
    requires WideWindow(c) && Nondecreasing(evs) && |mask| == |evs|
    requires forall i :: 0 <= i < |evs| && !mask[i] ==> !Passed(Replies(c, map[], evs)[i])
    ensures Replies(c, map[], Select(evs, mask)) == Select(Replies(c, map[], evs), mask)
  {
    DropsAreFreeFrom(c, map[], map[], evs, mask, if evs == [] then 0.0 else evs[0].now);
  }

  /** On no trace in time order do cleanup passes change an answer. */
  ghost predicate EvictionUnobservable(c: Config) {
    forall evs :: Nondecreasing(evs) ==> Outcomes(c, map[], evs) == Outcomes(c, map[], WithoutCleanup(evs))
  }

  /** Which events are requests. */
  function Asks(evs: seq<Event>): (mask: seq<bool>)
    ensures |mask| == |evs|
    ensures forall i :: 0 <= i < |evs| ==> mask[i] == evs[i].Request?
  {
    if evs == [] then [] else [evs[0].Request?] + Asks(evs[1..])
  }

  lemma {:induction false} AsksKeepsRequests(c: Config, m: Table, evs: seq<Event>)
    ensures Select(evs, Asks(evs)) == WithoutCleanup(evs)
    ensures Flatten(Select(Replies(c, m, evs), Asks(evs))) == Outcomes(c, m, evs)
    decreases |evs|
  {
    if evs != [] {
      var m', tail := Next(c, m, evs[0]), evs[1..];
      AsksKeepsRequests(c, m', tail);
      assert Asks(evs)[1..] == Asks(tail) && Replies(c, m, evs)[1..] == Replies(c, m', tail);
      var kept := Select(Replies(c, m', tail), Asks(tail));
      if evs[0].Request? {
        assert ([Emitted(c, m, evs[0])] + kept)[1..] == kept;
      } else {
        assert [] + kept == kept;
        assert [] + Outcomes(c, m', tail) == Outcomes(c, m', tail);
      }
    }
  }

  lemma EvictionInvisible(c: Config, evs: seq<Event>)
    requires WideWindow(c) && Nondecreasing(evs)
    ensures Outcomes(c, map[], evs) == Outcomes(c, map[], WithoutCleanup(evs))
  {
    RepliesOnly(c, map[], evs);
    DropsAreFree(c, evs, Asks(evs));
    AsksKeepsRequests(c, map[], evs);
    FlattenReplies(c, map[], WithoutCleanup(evs));
  }

  // ---- When eviction shows ----

  function Requests(ip: string, now: real, n: nat): seq<Event> {
    if n == 0 then [] else [Request(ip, now)] + Requests(ip, now, n - 1)
  }

  function Same(now: real, n: nat): (ts: seq<real>)
    ensures |ts| == n
  {
    if n == 0 then [] else [now] + Same(now, n - 1)
  }

  lemma {:induction false} SameAt(now: real, n: nat, k: nat)
    requires k < n
    ensures Same(now, n)[k] == now
  {
    if k > 0 {
      SameAt(now, n - 1, k - 1);
    }
  }

  function Answers(ip: string, ok: bool, n: nat): seq<Outcome> {
    if n == 0 then [] else [Outcome(ip, ok)] + Answers(ip, ok, n - 1)
  }

  lemma RequestFirst(c: Config, m: Table, ip: string, now: real, rest: seq<Event>)
    ensures Outcomes(c, m, [Request(ip, now)] + rest)
         == [Outcome(ip, Admits(c, Lookup(m, ip), now))] + Outcomes(c, m[ip := Touch(c, Lookup(m, ip), now)], rest)
  {
    assert ([Request(ip, now)] + rest)[1..] == rest;
  }

  lemma TouchAtOnce(c: Config, tokens: int, now: real)
    requires 1 <= tokens <= c.burst
    ensures Admits(c, Some(Bucket(tokens as real, now)), now)
    ensures Touch(c, Some(Bucket(tokens as real, now)), now) == Bucket((tokens - 1) as real, now)
  {
    assert Gain(c, now, now) == 0.0;
  }

  lemma BatchHead(ip: string, now: real, n: nat, rest: seq<Event>, os: seq<Outcome>)
    requires n > 0
    ensures Requests(ip, now, n) + rest == [Request(ip, now)] + (Requests(ip, now, n - 1) + rest)
    ensures Answers(ip, true, n) + os == [Outcome(ip, true)] + (Answers(ip, true, n - 1) + os)
  {
  }

  lemma DrainOne(c: Config, tokens: int, ip: string, now: real, n: nat, rest: seq<Event>)
    requires 1 <= tokens <= c.burst && n > 0
    ensures Outcomes(c, map[ip := Bucket(tokens as real, now)], Requests(ip, now, n) + rest)
         == [Outcome(ip, true)]
            + Outcomes(c, map[ip := Bucket((tokens - 1) as real, now)], Requests(ip, now, n - 1) + rest)
  {
    var m, m' := map[ip := Bucket(tokens as real, now)], map[ip := Bucket((tokens - 1) as real, now)];
    BatchHead(ip, now, n, rest, []);
    RequestFirst(c, m, ip, now, Requests(ip, now, n - 1) + rest);
    TouchAtOnce(c, tokens, now);
    assert m[ip := Bucket((tokens - 1) as real, now)] == m';
  }

  lemma {:induction false} DrainBatch(c: Config, tokens: int, ip: string, now: real, n: nat, rest: seq<Event>)
    requires tokens <= c.burst && (n == 0 || n <= tokens)
    ensures Outcomes(c, map[ip := Bucket(tokens as real, now)], Requests(ip, now, n) + rest)
         == Answers(ip, true, n) + Outcomes(c, map[ip := Bucket((tokens - n) as real, now)], rest)
    decreases n
  {
    var os := Outcomes(c, map[ip := Bucket((tokens - n) as real, now)], rest);
    if n == 0 {
      assert Requests(ip, now, n) + rest == rest;
      assert Answers(ip, true, n) + os == os;
    } else {
      DrainOne(c, tokens, ip, now, n, rest);
      DrainBatch(c, tokens - 1, ip, now, n - 1, rest);
      assert [Outcome(ip, true)] + (Answers(ip, true, n - 1) + os) == Answers(ip, true, n) + os;
    }
  }

  /** A burst of simultaneous requests on an empty limiter is let through whole. */
  lemma FirstBatch(c: Config, ip: string, now: real, n: nat, rest: seq<Event>)
    requires n == 1 || 1 <= n <= c.burst
    ensures Outcomes(c, map[], Requests(ip, now, n) + rest)
         == Answers(ip, true, n) + Outcomes(c, map[ip := Bucket((c.burst - n) as real, now)], rest)
  {
    var os := Outcomes(c, map[ip := Bucket((c.burst - n) as real, now)], rest);
    BatchHead(ip, now, n, rest, os);
    RequestFirst(c, map[], ip, now, Requests(ip, now, n - 1) + rest);
    DrainBatch(c, c.burst - 1, ip, now, n - 1, rest);
  }

  lemma {:induction false} BatchShape(ip: string, now: real, n: nat, rest: seq<Event>)
    ensures WithoutCleanup(Requests(ip, now, n) + rest) == Requests(ip, now, n) + WithoutCleanup(rest)
    ensures |Requests(ip, now, n)| == n && forall e :: e in Requests(ip, now, n) ==> e == Request(ip, now)
    decreases n
  {
    var evs := Requests(ip, now, n) + rest;
    if n == 0 {
      assert evs == rest;
    } else {
      BatchShape(ip, now, n - 1, rest);
      assert evs[0] == Request(ip, now) && evs[1..] == Requests(ip, now, n - 1) + rest;
    }
  }

  lemma TimesFirst(ip: string, now: real, rest: seq<Event>)
    ensures Times([Request(ip, now)] + rest, ip) == [now] + Times(rest, ip)
  {
    assert ([Request(ip, now)] + rest)[1..] == rest;
  }

  lemma {:induction false} BatchTimes(ip: string, now: real, n: nat, rest: seq<Event>)
    ensures Times(Requests(ip, now, n) + rest, ip) == Same(now, n) + Times(rest, ip)
    decreases n
  {
    if n == 0 {
      assert Requests(ip, now, n) + rest == rest;
    } else {
      var tail := Requests(ip, now, n - 1) + rest;
      calc {
        Times(Requests(ip, now, n) + rest, ip);
        { BatchHead(ip, now, n, rest, []); }
        Times([Request(ip, now)] + tail, ip);
        { TimesFirst(ip, now, tail); }
        [now] + Times(tail, ip);
        { BatchTimes(ip, now, n - 1, rest); }
        [now] + (Same(now, n - 1) + Times(rest, ip));
        Same(now, n) + Times(rest, ip);
      }
    }
  }

  lemma {:induction false} AnswersAllOk(ip: string, n: nat, os: seq<Outcome>)
    requires forall ok :: ok in AnswersTo(os, ip) ==> ok
    ensures forall ok :: ok in AnswersTo(Answers(ip, true, n) + os, ip) ==> ok
    decreases n
  {
    if n == 0 {
      assert [] + os == os;
    } else {
      AnswersAllOk(ip, n - 1, os);
      assert (Answers(ip, true, n) + os)[1..] == Answers(ip, true, n - 1) + os;
    }
  }

  /** A cleanup pass, and a batch after it. */
  function Second(n: nat, late: real): seq<Event> {
    [Cleanup(late)] + Requests("", late, n)
  }

  /** A batch now and another one more than five minutes later, with a cleanup pass in between. */
  function TwoBatches(n: nat, late: real): seq<Event> {
    Requests("", 0.0, n) + Second(n, late)
  }

  lemma TwoBatchesShape(n: nat, late: real)
    requires late >= 0.0
    ensures Nondecreasing(TwoBatches(n, late))
    ensures WithoutCleanup(TwoBatches(n, late)) == Requests("", 0.0, n) + Requests("", late, n)
  {
    var tail := Second(n, late);
    BatchShape("", 0.0, n, tail);
    BatchShape("", late, n, []);
    assert Requests("", late, n) + [] == Requests("", late, n);
    assert tail[1..] == Requests("", late, n);
    assert WithoutCleanup(tail) == Requests("", late, n);
    var evs := TwoBatches(n, late);
    forall i | 0 <= i < |evs|
      ensures evs[i].now == if i < n then 0.0 else late
    {
      if i < n {
        assert evs[i] in Requests("", 0.0, n);
      } else if i > n {
        assert evs[i] in Requests("", late, n);
      }
    }
  }

  lemma SecondBatchTimes(n: nat, late: real)
    ensures Times(Requests("", 0.0, n) + Requests("", late, n), "") == Same(0.0, n) + Same(late, n)
  {
    BatchTimes("", 0.0, n, Requests("", late, n));
    BatchTimes("", late, n, []);
    assert Requests("", late, n) + [] == Requests("", late, n);
    assert Same(late, n) + [] == Same(late, n);
  }

  /** A moment after the five minutes at which an empty bucket is not yet full again. */
  lemma LateTime(c: Config) returns (late: real)
    requires !WideWindow(c)
    ensures late > 300.0 && (c.burst >= 1 ==> Gain(c, 0.0, late) < c.burst as real)
    ensures Gain(c, 0.0, late - 300.0) < 1.0
  {
    if c.rate > 0 {
      late := 300.0 + 0.5 / c.rate as real;
      assert (late - 300.0) * c.rate as real == 0.5;
      assert c.rate as real * late == 300.0 * c.rate as real + 0.5;
      assert 300.0 * c.rate as real == (c.rate * 300) as real;
    } else {
      late := 301.0;
    }
  }

  lemma {:induction false} AllCounted(ds: seq<bool>, j: nat)
    requires j <= |ds| && forall k :: 0 <= k < j ==> ds[k]
    ensures Count(ds, 0, j) == j
    decreases j
  {
    if j > 0 {
      AllCounted(ds, j - 1);
    }
  }

  lemma SomeDenied(c: Config, n: nat, late: real) returns (k: nat)
    requires n == if c.burst >= 1 then c.burst else 1
    requires c.burst >= 1 ==> Gain(c, 0.0, late) < c.burst as real
    ensures k < 2 * n && !Decide(c, None, Same(0.0, n) + Same(late, n))[k]
  {
    var ts := Same(0.0, n) + Same(late, n);
    var ds := Decide(c, None, ts);
    k := 2 * n - 1;
    if i :| 0 <= i < k && !ds[i] {
      k := i;
    } else {
      ExactLaw(c, ts, k);
      AllCounted(ds, k);
      SameAt(0.0, n, 0);
      SameAt(late, n, n - 1);
      var i := if c.burst >= 1 then 0 else k;
      assert Count(ds, i, k) as real + 1.0 > c.burst as real + Gain(c, ts[i], ts[k]);
    }
  }

  /** Without a pass, the batch at the late time does not go through whole. */
  lemma SecondBatchDenied(c: Config, n: nat, late: real)
    requires n == if c.burst >= 1 then c.burst else 1
    requires c.burst >= 1 ==> Gain(c, 0.0, late) < c.burst as real
    ensures Outcomes(c, map["" := Bucket((c.burst - n) as real, 0.0)], Requests("", late, n)) != Answers("", true, n)
  {
    var first, second := Requests("", 0.0, n), Requests("", late, n);
    var left := map["" := Bucket((c.burst - n) as real, 0.0)];
    FirstBatch(c, "", 0.0, n, second);
    BatchShape("", 0.0, n, []);
    BatchShape("", late, n, []);
    OneBucketEach(c, map[], first + second, "");
    SecondBatchTimes(n, late);
    var k := SomeDenied(c, n, late);
    var ds := Decide(c, None, Same(0.0, n) + Same(late, n));
    assert ds[k] in ds;
    if Outcomes(c, left, second) == Answers("", true, n) {
      assert Answers("", true, n) + [] == Answers("", true, n);
      AnswersAllOk("", n, []);
      AnswersAllOk("", n, Answers("", true, n));
    }
  }

  /** After a pass it does. */
  lemma SecondBatchPasses(c: Config, n: nat, late: real)
    requires (n == 1 || 1 <= n <= c.burst) && late > 300.0
    ensures Outcomes(c, map["" := Bucket((c.burst - n) as real, 0.0)], Second(n, late)) == Answers("", true, n)
  {
    var left, second := map["" := Bucket((c.burst - n) as real, 0.0)], Requests("", late, n);
    assert Swept(left, late) == map[];
    assert Second(n, late)[1..] == second;
    assert [] + Outcomes(c, map[], second) == Outcomes(c, map[], second);
    FirstBatch(c, "", late, n, []);
    assert second + [] == second;
    assert Answers("", true, n) + [] == Answers("", true, n);
  }

  /** Two batches that an evicting limiter lets through whole and a faithful one does not. */
  lemma EvictionShows(c: Config) returns (evs: seq<Event>)
    requires !WideWindow(c)
    ensures Nondecreasing(evs)
    ensures Outcomes(c, map[], evs) != Outcomes(c, map[], WithoutCleanup(evs))
  {
    var n: nat := if c.burst >= 1 then c.burst else 1;
    var late := LateTime(c);
    evs := TwoBatches(n, late);
    TwoBatchesShape(n, late);
    FirstBatch(c, "", 0.0, n, Second(n, late));
    FirstBatch(c, "", 0.0, n, Requests("", late, n));
    SecondBatchPasses(c, n, late);
    SecondBatchDenied(c, n, late);
    var left := map["" := Bucket((c.burst - n) as real, 0.0)];
    var first, passed, faithful := Answers("", true, n), Answers("", true, n), Outcomes(c, left, Requests("", late, n));
    assert (first + passed)[|first|..] == passed && (first + faithful)[|first|..] == faithful;
  }

  /**
   Eviction is unobservable exactly when a bucket refills completely within the
   five minutes: 1 <= burst <= 300 * rate.
   */
  lemma EvictionLaw(c: Config)
    ensures EvictionUnobservable(c) <==> 1 <= c.burst <= 300 * c.rate
  {
    if WideWindow(c) {
      forall evs | Nondecreasing(evs)
        ensures Outcomes(c, map[], evs) == Outcomes(c, map[], WithoutCleanup(evs))
      {
        EvictionInvisible(c, evs);
      }
    } else {
      var evs := EvictionShows(c);
    }
  }

  // ---- Denied requests among cleanup passes ----

  ghost predicate DropsDenied(c: Config, evs: seq<Event>, mask: seq<bool>) {
    && |mask| == |evs|
    && forall i :: 0 <= i < |evs| && !mask[i] ==> Denied(Replies(c, map[], evs)[i])
  }

  /** On no trace in time order does leaving out denied requests change the reply to another event. */
  ghost predicate DeniedFree(c: Config) {
    forall evs: seq<Event>, mask: seq<bool> :: Nondecreasing(evs) && DropsDenied(c, evs, mask) ==>
      Replies(c, map[], Select(evs, mask)) == Select(Replies(c, map[], evs), mask)
  }

  /** The table left by a list of events. */
  function Final(c: Config, m: Table, evs: seq<Event>): Table
    decreases |evs|
  {
    if evs == [] then m else Final(c, Next(c, m, evs[0]), evs[1..])
  }

  lemma {:induction false} RepliesConcat(c: Config, m: Table, xs: seq<Event>, ys: seq<Event>)
    ensures Replies(c, m, xs + ys) == Replies(c, m, xs) + Replies(c, Final(c, m, xs), ys)
    decreases |xs|
  {
    if xs == [] {
      assert xs + ys == ys;
    } else {
      assert (xs + ys)[1..] == xs[1..] + ys;
      RepliesConcat(c, Next(c, m, xs[0]), xs[1..], ys);
    }
  }

  function Mask(bit: bool, n: nat): (mask: seq<bool>)
    ensures |mask| == n && forall i :: 0 <= i < n ==> mask[i] == bit
  {
    if n == 0 then [] else [bit] + Mask(bit, n - 1)
  }

  lemma {:induction false} SelectAll<T>(xs: seq<T>)
    ensures Select(xs, Mask(true, |xs|)) == xs
  {
    if xs != [] {
      SelectAll(xs[1..]);
    }
  }

  /** Leaving out one element. */
  lemma {:induction false} SelectAllBut<T>(xs: seq<T>, x: T, ys: seq<T>)
    ensures Select(xs + [x] + ys, Mask(true, |xs|) + [false] + Mask(true, |ys|)) == xs + ys
  {
    var mask := Mask(true, |xs|) + [false] + Mask(true, |ys|);
    if xs == [] {
      assert (xs + [x] + ys)[1..] == ys && mask[1..] == Mask(true, |ys|);
      SelectAll(ys);
      assert [] + ys == ys && xs + ys == ys;
    } else {
      assert (xs + [x] + ys)[1..] == xs[1..] + [x] + ys;
      assert mask[1..] == Mask(true, |xs[1..]|) + [false] + Mask(true, |ys|);
      SelectAllBut(xs[1..], x, ys);
      assert [xs[0]] + (xs[1..] + ys) == xs + ys;
    }
  }

  lemma {:induction false} DrainLeaves(c: Config, tokens: int, now: real, n: nat)
    requires tokens <= c.burst && (n == 0 || n <= tokens)
    ensures Final(c, map["" := Bucket(tokens as real, now)], Requests("", now, n))
         == map["" := Bucket((tokens - n) as real, now)]
    decreases n
  {
    if n > 0 {
      TouchAtOnce(c, tokens, now);
      var m := map["" := Bucket(tokens as real, now)];
      assert m["" := Bucket((tokens - 1) as real, now)] == map["" := Bucket((tokens - 1) as real, now)];
      DrainLeaves(c, tokens - 1, now, n - 1);
    }
  }

  /** A first batch of the burst size leaves the bucket empty. */
  lemma FirstBatchLeaves(c: Config, n: nat)
    requires n == 1 || 1 <= n <= c.burst
    ensures Final(c, map[], Requests("", 0.0, n)) == map["" := Bucket((c.burst - n) as real, 0.0)]
  {
    DrainLeaves(c, c.burst - 1, 0.0, n - 1);
    assert Requests("", 0.0, n)[1..] == Requests("", 0.0, n - 1);
    assert Next(c, map[], Request("", 0.0)) == map["" := Bucket((c.burst - 1) as real, 0.0)];
  }

  /** The trace of `TwoBatches` with one more request, 300 s before the pass. */
  function TwoBatchesAskedBetween(n: nat, late: real): seq<Event> {
    Requests("", 0.0, n) + [Request("", late - 300.0)] + Second(n, late)
  }

  lemma AskedBetweenShape(n: nat, late: real)
    requires late >= 300.0
    ensures |TwoBatchesAskedBetween(n, late)| == 2 * n + 2
    ensures Nondecreasing(TwoBatchesAskedBetween(n, late))
  {
    BatchShape("", 0.0, n, []);
    BatchShape("", late, n, []);
    var evs := TwoBatchesAskedBetween(n, late);
    forall i | 0 <= i < |evs|
      ensures evs[i].now == if i < n then 0.0 else if i == n then late - 300.0 else late
    {
      if i < n {
        assert evs[i] in Requests("", 0.0, n);
      } else if i > n + 1 {
        assert evs[i] in Requests("", late, n);
      }
    }
  }

  /** The denied request keeps the bucket in the table, so the pass changes nothing. */
  lemma AskedBetweenKeeps(c: Config, n: nat, late: real)
    requires n == if c.burst >= 1 then c.burst else 1
    requires late > 300.0 && Gain(c, 0.0, late - 300.0) < 1.0
    ensures var left := map["" := Bucket((c.burst - n) as real, 0.0)]; var e := Request("", late - 300.0);
            && !Admits(c, Lookup(left, ""), late - 300.0)
            && Outcomes(c, Next(c, left, e), Second(n, late)) == Outcomes(c, left, Requests("", late, n))
  {
    var left, second := map["" := Bucket((c.burst - n) as real, 0.0)], Requests("", late, n);
    var e := Request("", late - 300.0);
    var asked := Next(c, left, e);
    assert Swept(asked, late) == asked;
    assert Second(n, late)[1..] == second;
    assert [] + Outcomes(c, asked, second) == Outcomes(c, asked, second);
    DeniedKeepsAlike(c, left, left, "", late - 300.0);
    BatchShape("", late, n, []);
    assert second + [] == second;
    OneOutcomeEach(c, asked, second);
    DeniedAreFree(c, asked, left, second, Mask(true, n));
    SelectAll(second);
    SelectAll(Outcomes(c, asked, second));
  }

  /** With the denied request and without it, the replies from the pass on differ. */
  lemma RepliesDiffer(c: Config, n: nat, late: real)
    requires n == if c.burst >= 1 then c.burst else 1
    requires late > 300.0 && Gain(c, 0.0, late - 300.0) < 1.0
    requires c.burst >= 1 ==> Gain(c, 0.0, late) < c.burst as real
    ensures var left := map["" := Bucket((c.burst - n) as real, 0.0)];
            Replies(c, Next(c, left, Request("", late - 300.0)), Second(n, late)) != Replies(c, left, Second(n, late))
  {
    var left := map["" := Bucket((c.burst - n) as real, 0.0)];
    var asked := Next(c, left, Request("", late - 300.0));
    AskedBetweenKeeps(c, n, late);
    SecondBatchDenied(c, n, late);
    SecondBatchPasses(c, n, late);
    FlattenReplies(c, left, Second(n, late));
    FlattenReplies(c, asked, Second(n, late));
  }

  lemma PrefixCancels<T>(xs: seq<T>, ys: seq<T>, zs: seq<T>)
    requires xs + ys == xs + zs
    ensures ys == zs
  {
    assert (xs + ys)[|xs|..] == ys && (xs + zs)[|xs|..] == zs;
  }

  lemma RepliesAskedBetween(c: Config, left: Table, first: seq<Event>, asked: Event, second: seq<Event>)
    requires left == Final(c, map[], first)
    ensures Replies(c, map[], first + [asked] + second)
         == Replies(c, map[], first) + [Emitted(c, left, asked)] + Replies(c, Next(c, left, asked), second)
  {
    assert first + [asked] + second == first + ([asked] + second);
    RepliesConcat(c, map[], first, [asked] + second);
    assert ([asked] + second)[1..] == second;
  }

  /** Leaving out one event in the middle matters when the replies after it differ. */
  lemma OmissionShows(c: Config, first: seq<Event>, e: Event, rest: seq<Event>, left: Table)
    requires left == Final(c, map[], first) && Replies(c, Next(c, left, e), rest) != Replies(c, left, rest)
    ensures var evs, mask := first + [e] + rest, Mask(true, |first|) + [false] + Mask(true, |rest|);
            Replies(c, map[], Select(evs, mask)) != Select(Replies(c, map[], evs), mask)
  {
    var rs, answer, tail := Replies(c, map[], first), Emitted(c, left, e), Replies(c, Next(c, left, e), rest);
    RepliesAskedBetween(c, left, first, e, rest);
    SelectAllBut(first, e, rest);
    SelectAllBut(rs, answer, tail);
    RepliesConcat(c, map[], first, rest);
    if rs + tail == rs + Replies(c, left, rest) {
      PrefixCancels(rs, tail, Replies(c, left, rest));
    }
  }

  lemma OneMissing(n: nat, k: nat)
    ensures var mask := Mask(true, n) + [false] + Mask(true, k);
            |mask| == n + 1 + k && forall i :: 0 <= i < |mask| ==> (mask[i] <==> i != n)
  {
  }

  lemma Middle<T>(xs: seq<T>, x: T, ys: seq<T>)
    ensures |xs + [x] + ys| == |xs| + 1 + |ys| && (xs + [x] + ys)[|xs|] == x
  {
  }

  lemma OmissionOfDenied(c: Config, first: seq<Event>, e: Event, rest: seq<Event>)
    requires Denied(Emitted(c, Final(c, map[], first), e))
    ensures DropsDenied(c, first + [e] + rest, Mask(true, |first|) + [false] + Mask(true, |rest|))
  {
    var left := Final(c, map[], first);
    var evs, mask := first + [e] + rest, Mask(true, |first|) + [false] + Mask(true, |rest|);
    RepliesAskedBetween(c, left, first, e, rest);
    Middle(Replies(c, map[], first), Emitted(c, left, e), Replies(c, Next(c, left, e), rest));
    OneMissing(|first|, |rest|);
    assert |evs| == |mask| && Replies(c, map[], evs)[|first|] == Emitted(c, left, e);
  }

  /** A denied request without which a later batch goes through whole, and with which it does not. */
  lemma DeniedShows(c: Config) returns (evs: seq<Event>, mask: seq<bool>)
    requires !WideWindow(c)
    ensures Nondecreasing(evs) && DropsDenied(c, evs, mask)
    ensures Replies(c, map[], Select(evs, mask)) != Select(Replies(c, map[], evs), mask)
  {
    var n: nat := if c.burst >= 1 then c.burst else 1;
    var late := LateTime(c);
    var first, asked, second := Requests("", 0.0, n), Request("", late - 300.0), Second(n, late);
    evs, mask := TwoBatchesAskedBetween(n, late), Mask(true, n) + [false] + Mask(true, n + 1);
    BatchShape("", 0.0, n, []);
    BatchShape("", late, n, []);
    AskedBetweenShape(n, late);
    FirstBatchLeaves(c, n);
    AskedBetweenKeeps(c, n, late);
    OmissionOfDenied(c, first, asked, second);
    RepliesDiffer(c, n, late);
    OmissionShows(c, first, asked, second, map["" := Bucket((c.burst - n) as real, 0.0)]);
  }

  lemma ThreeReplies(c: Config, m: Table, e0: Event, e1: Event, e2: Event)
    ensures var m1 := Next(c, m, e0);
            Replies(c, m, [e0, e1, e2]) == [Emitted(c, m, e0), Emitted(c, m1, e1), Emitted(c, Next(c, m1, e1), e2)]
  {
    var m1 := Next(c, m, e0);
    assert [e0, e1, e2][1..] == [e1, e2] && [e1, e2][1..] == [e2];
    assert Replies(c, Next(c, m1, e1), [e2]) == [Emitted(c, Next(c, m1, e1), e2)];
    assert Replies(c, m1, [e1, e2]) == [Emitted(c, m1, e1)] + Replies(c, Next(c, m1, e1), [e2]);
  }

  lemma FourReplies(c: Config, m: Table, e0: Event, e1: Event, e2: Event, e3: Event)
    ensures var m1 := Next(c, m, e0);
            Replies(c, m, [e0, e1, e2, e3]) == [Emitted(c, m, e0)] + Replies(c, m1, [e1, e2, e3])
  {
    assert [e0, e1, e2, e3][1..] == [e1, e2, e3];
  }

  /** At rate 0 an IP without a whole token is denied, and only a long silence helps. */
  lemma NoRefill(c: Config, ip: string, tokens: real, was: real, now: real)
    requires c == Config(0, 1) && tokens < 1.0
    ensures var m := map[ip := Bucket(tokens, was)];
            && Next(c, m, Request(ip, now)) == map[ip := Bucket(tokens, now)]
            && Emitted(c, m, Request(ip, now)) == [Outcome(ip, false)]
            && Next(c, m, Cleanup(now)) == if now - was > 300.0 then map[] else m
  {
    var m := map[ip := Bucket(tokens, was)];
    assert Gain(c, was, now) == 0.0;
    assert m[ip := Bucket(tokens, now)] == map[ip := Bucket(tokens, now)];
    if now - was > 300.0 {
      assert Swept(m, now) == map[];
    } else {
      assert Swept(m, now) == m;
    }
  }

  /** At rate 0 and burst 1, by numbers: a denied request after 200 s costs the one after 302 s its answer. */
  lemma DeniedCosts(c: Config, ip: string, t: real)
    requires c == Config(0, 1)
    ensures var first, asked := Request(ip, t), Request(ip, t + 200.0);
            var pass, last := Cleanup(t + 301.0), Request(ip, t + 302.0);
            && Replies(c, map[], [first, asked, pass, last])
               == [[Outcome(ip, true)], [Outcome(ip, false)], [], [Outcome(ip, false)]]
            && Replies(c, map[], [first, pass, last]) == [[Outcome(ip, true)], [], [Outcome(ip, true)]]
  {
    var first, asked, pass, last := Request(ip, t), Request(ip, t + 200.0), Cleanup(t + 301.0), Request(ip, t + 302.0);
    assert Next(c, map[], first) == map[ip := Bucket(0.0, t)];
    NoRefill(c, ip, 0.0, t, t + 200.0);
    NoRefill(c, ip, 0.0, t, t + 301.0);
    NoRefill(c, ip, 0.0, t + 200.0, t + 301.0);
    NoRefill(c, ip, 0.0, t + 200.0, t + 302.0);
    FourReplies(c, map[], first, asked, pass, last);
    ThreeReplies(c, map[ip := Bucket(0.0, t)], asked, pass, last);
    ThreeReplies(c, map[], first, pass, last);
  }

  /**
   A denied request leaves no trace exactly when a bucket refills completely
   within the five minutes.  Otherwise it can keep alive a bucket that a pass
   would have replaced by a full one.
   */
  lemma DeniedFreeLaw(c: Config)
    ensures DeniedFree(c) <==> 1 <= c.burst <= 300 * c.rate
  {
    if WideWindow(c) {
      forall evs: seq<Event>, mask: seq<bool> | Nondecreasing(evs) && DropsDenied(c, evs, mask)
        ensures Replies(c, map[], Select(evs, mask)) == Select(Replies(c, map[], evs), mask)
      {
        DropsAreFree(c, evs, mask);
      }
    } else {
      var evs, mask := DeniedShows(c);
    }
  }

  lemma {:induction false} OnlyRequests(evs: seq<Event>, ip: string)
    ensures AllRequests(WithoutCleanup(evs)) && Times(WithoutCleanup(evs), ip) == Times(evs, ip)
    decreases |evs|
  {
    if evs != [] {
      OnlyRequests(evs[1..], ip);
      var rest := WithoutCleanup(evs[1..]);
      if evs[0].Request? {
        assert ([evs[0]] + rest)[1..] == rest;
      } else {
        assert [] + rest == rest;
      }
    }
  }

  /**
   The limiter as a whole: with IPs interleaved and cleanup passes anywhere, the
   answers to each IP are those of the law on that IP's own request times.
   */
  lemma LimiterObeysLaw(c: Config, evs: seq<Event>, ip: string)
    requires 1 <= c.burst <= 300 * c.rate && Nondecreasing(evs)
    ensures AnswersTo(Outcomes(c, map[], evs), ip) == Decide(c, None, Times(evs, ip))
    ensures LawDecides(c, Times(evs, ip))
  {
    EvictionInvisible(c, evs);
    OnlyRequests(evs, ip);
    OneBucketEach(c, map[], WithoutCleanup(evs), ip);
    if Times(evs, ip) != [] {
      LawIffBurst(c, Times(evs, ip));
    }
  }
}
