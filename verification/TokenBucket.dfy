/**
 The token bucket of internal/middleware/ratelimit.go as a pure transition system.

 Time is a real number of seconds, tokens are reals.  A limiter is a table from IP
 to bucket; it reacts to requests and to cleanup passes.  The classes in
 RateLimiter.dfy change their objects exactly as these functions say.
 */
module TokenBucket {
  import opened Wrappers

  datatype Config = Config(rate: int, burst: int)

  datatype Bucket = Bucket(tokens: real, lastRef: real)

  type Table = map<string, Bucket>

  /** Entries idle for longer than this many seconds are dropped by a cleanup pass. */
  const TTL := 300.0

  function Lookup(m: Table, ip: string): Option<Bucket> {
    if ip in m then Some(m[ip]) else None
  }

  /** The tokens refilled between two times. */
  function Gain(c: Config, from: real, to: real): real {
    (to - from) * c.rate as real
  }

  /** The tokens in `b` at time `now`, refilled lazily and capped at the burst size. */
  function Refilled(c: Config, b: Bucket, now: real): real {
    var t := b.tokens + Gain(c, b.lastRef, now);
    if t > c.burst as real then c.burst as real else t
  }

  /** The tokens a request at `now` finds: a first request finds a full bucket. */
  function Available(c: Config, prev: Option<Bucket>, now: real): real {
    match prev
    case None => c.burst as real
    case Some(b) => Refilled(c, b, now)
  }

  /** Whether a request is let through.  A first request is, whatever the burst size. */
  predicate Admits(c: Config, prev: Option<Bucket>, now: real) {
    prev.None? || Refilled(c, prev.value, now) >= 1.0
  }

  /** The bucket after a request at `now`. */
  function Touch(c: Config, prev: Option<Bucket>, now: real): Bucket {
    Bucket(Available(c, prev, now) - (if Admits(c, prev, now) then 1.0 else 0.0), now)
  }

  predicate Stale(b: Bucket, now: real) {
    now - b.lastRef > TTL
  }

  /** The table after a cleanup pass at `now`. */
  function Swept(m: Table, now: real): Table {
    map ip | ip in m && !Stale(m[ip], now) :: m[ip]
  }

  datatype Event = Request(ip: string, now: real) | Cleanup(now: real)

  datatype Outcome = Outcome(ip: string, ok: bool)

  function Next(c: Config, m: Table, e: Event): Table {
    match e
    case Request(ip, now) => m[ip := Touch(c, Lookup(m, ip), now)]
    case Cleanup(now) => Swept(m, now)
  }

  function Emitted(c: Config, m: Table, e: Event): seq<Outcome> {
    match e
    case Request(ip, now) => [Outcome(ip, Admits(c, Lookup(m, ip), now))]
    case Cleanup(_) => []
  }

  /** Everything the limiter answers when `evs` happen in this order, starting from `m`. */
  function Outcomes(c: Config, m: Table, evs: seq<Event>): seq<Outcome>
    decreases |evs|
  {
    if evs == [] then []
    else Emitted(c, m, evs[0]) + Outcomes(c, Next(c, m, evs[0]), evs[1..])
  }

  /** The decisions of one bucket on a list of request times. */
  function Decide(c: Config, b: Option<Bucket>, ts: seq<real>): (ds: seq<bool>)
    ensures |ds| == |ts|
    decreases |ts|
  {
    if ts == [] then []
    else [Admits(c, b, ts[0])] + Decide(c, Some(Touch(c, b, ts[0])), ts[1..])
  }

  /** The bucket left by a list of request times. */
  function After(c: Config, b: Option<Bucket>, ts: seq<real>): Option<Bucket>
    decreases |ts|
  {
    if ts == [] then b else After(c, Some(Touch(c, b, ts[0])), ts[1..])
  }

  /** The j-th decision is the one taken on the bucket left by the first j requests. */
  lemma {:induction false} DecideAt(c: Config, b: Option<Bucket>, ts: seq<real>, j: nat)
    requires j < |ts|
    ensures Decide(c, b, ts)[j] == Admits(c, After(c, b, ts[..j]), ts[j])
    ensures After(c, b, ts[..j + 1]) == Some(Touch(c, After(c, b, ts[..j]), ts[j]))
    decreases |ts|
  {
    var b1 := Some(Touch(c, b, ts[0]));
    if j == 0 {
      assert ts[..1][1..] == [];
    } else {
      DecideAt(c, b1, ts[1..], j - 1);
      assert ts[..j][1..] == ts[1..][..j - 1];
      assert ts[..j + 1][1..] == ts[1..][..j];
    }
  }
}
