/** The mutable limiter of internal/middleware/ratelimit.go: a map of bucket objects updated in place. */
module RateLimiting {
  import opened Wrappers
  import TB = TokenBucket

  class Bucket {
    var tokens: real
    var lastRef: real

    constructor (tokens: real, lastRef: real)
      ensures this.tokens == tokens && this.lastRef == lastRef
    {
      this.tokens := tokens;
      this.lastRef := lastRef;
    }

    function Snapshot(): TB.Bucket
      reads this
    {
      TB.Bucket(tokens, lastRef)
    }
  }

  class RateLimiter {
    var limits: map<string, Bucket>
    const rate: int
    const burst: int
    const ttl: real

    ghost const cfg: TB.Config := TB.Config(rate, burst)

    /** No two IPs share a bucket object. */
    ghost predicate Valid()
      reads this
    {
      && ttl == TB.TTL
      && forall p, q :: p in limits && q in limits && p != q ==> limits[p] != limits[q]
    }

    /** The limiter as a value. */
    ghost function Table(): TB.Table
      reads this, limits.Values
    {
      map ip | ip in limits :: limits[ip].Snapshot()
    }

    constructor (rate: int, burst: int)
      ensures Valid() && this.rate == rate && this.burst == burst
      ensures Table() == map[]
    {
      limits := map[];
      this.rate := rate;
      this.burst := burst;
      ttl := 300.0;
    }

    /** One request: the answer and the whole new table are those of the transition system. */
    method Allow(ip: string, now: real) returns (ok: bool)
      requires Valid()
      modifies this, limits.Values
      ensures Valid() && fresh(limits.Values - old(limits.Values))
      ensures ok == TB.Admits(cfg, TB.Lookup(old(Table()), ip), now)
      ensures Table() == TB.Next(cfg, old(Table()), TB.Request(ip, now))
    {
      ghost var before := Table();
      if ip !in limits {
        var b := new Bucket(burst as real - 1.0, now);
        limits := limits[ip := b];
        assert Table() == before[ip := TB.Touch(cfg, None, now)];
        return true;
      }
      var b := limits[ip];
      assert before[ip] == b.Snapshot();
      var elapsed := now - b.lastRef;
      var tokensToAdd := elapsed * rate as real;
      b.tokens := b.tokens + tokensToAdd;
      b.lastRef := now;
      if b.tokens > burst as real {
        b.tokens := burst as real;
      }
      ok := b.tokens >= 1.0;
      if ok {
        b.tokens := b.tokens - 1.0;
      }
      assert b.Snapshot() == TB.Touch(cfg, Some(before[ip]), now);
      assert Table() == before[ip := b.Snapshot()];
    }

    /** One cleanup pass: exactly the entries idle for more than five minutes go. */
    method Cleanup(now: real)
      requires Valid()
      modifies this
      ensures Valid() && limits.Values <= old(limits.Values)
      ensures Table() == TB.Next(cfg, old(Table()), TB.Cleanup(now))
      ensures forall ip :: ip in limits ==> now - limits[ip].lastRef <= 300.0
    {
      var pending := limits.Keys;
      while pending != {}
        invariant Valid()
        invariant pending <= limits.Keys <= old(limits).Keys
        invariant forall ip :: ip in limits ==> limits[ip] == old(limits)[ip]
        invariant forall ip :: ip in old(limits) && ip !in pending ==>
                                 (ip in limits <==> !TB.Stale(old(limits)[ip].Snapshot(), now))
        decreases pending
      {
        var ip :| ip in pending;
        pending := pending - {ip};
        if now - limits[ip].lastRef > ttl {
          limits := limits - {ip};
        }
      }
    }

    /** A whole run of the object: it answers what the transition system says. */
    method Replay(evs: seq<TB.Event>) returns (os: seq<TB.Outcome>)
      requires Valid()
      modifies this, limits.Values
      ensures Valid() && os == TB.Outcomes(cfg, old(Table()), evs)
      decreases |evs|
    {
      if evs == [] {
        return [];
      }
      var first: seq<TB.Outcome> := [];
      match evs[0] {
        case Request(ip, now) =>
          var ok := Allow(ip, now);
          first := [TB.Outcome(ip, ok)];
        case Cleanup(now) =>
          Cleanup(now);
      }
      os := Replay(evs[1..]);
      os := first + os;
    }
  }
}
