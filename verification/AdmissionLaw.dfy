/**
 What the token bucket admits, without mentioning tokens.

 `Law` is the independent definition: a request goes through when it fits under
 every window that ends at it.  `ExactLaw` shows that the bucket computes it,
 through the min-plus closed form of the token count.
 */
module AdmissionLaw {
  import opened Wrappers
  import opened TokenBucket

  /** The number of admitted requests among i..j-1. */
  function Count(ds: seq<bool>, i: nat, j: nat): nat
    requires j <= |ds|
  {
    if j <= i then 0 else Count(ds, i, j - 1) + (if ds[j - 1] then 1 else 0)
  }

  lemma {:induction false} CountSplit(ds: seq<bool>, i: nat, j: nat, k: nat)
    requires i <= j <= k <= |ds|
    ensures Count(ds, i, k) == Count(ds, i, j) + Count(ds, j, k)
    decreases k
  {
    if j < k {
      CountSplit(ds, i, j, k - 1);
    }
  }

  /** Request j and the admitted ones before it fit under every window ending at j. */
  ghost predicate Law(c: Config, ts: seq<real>, ds: seq<bool>, j: nat)
    requires j < |ts| && |ds| == |ts|
  {
    forall i: nat :: i <= j ==> Count(ds, i, j) as real + 1.0 <= c.burst as real + (ts[j] - ts[i]) * c.rate as real
  }

  /** The refill clock: the tokens poured since time zero, at each request. */
  ghost function Poured(c: Config, ts: seq<real>): (us: seq<real>)
    ensures |us| == |ts|
    ensures forall i, j :: 0 <= i < |ts| && 0 <= j < |ts| ==> Gain(c, ts[i], ts[j]) == us[j] - us[i]
  {
    var us := seq(|ts|, j requires 0 <= j < |ts| => ts[j] * c.rate as real);
    assert forall i, j :: 0 <= i < |ts| && 0 <= j < |ts| ==> Gain(c, ts[i], ts[j]) == us[j] - us[i] by {
      forall i, j | 0 <= i < |ts| && 0 <= j < |ts|
        ensures Gain(c, ts[i], ts[j]) == us[j] - us[i]
      {
        assert (ts[j] - ts[i]) * c.rate as real == ts[j] * c.rate as real - ts[i] * c.rate as real;
      }
    }
    us
  }

  // ---- The law over an arbitrary refill clock ----

  function Used(d: bool): real {
    if d then 1.0 else 0.0
  }

  function Capped(burst: real, t: real): real {
    if t > burst then burst else t
  }

  /** Room under the window from request i to request j, before request j. */
  ghost function Slack(burst: real, us: seq<real>, ds: seq<bool>, i: nat, j: nat): real
    requires i <= j < |us| == |ds|
  {
    burst + us[j] - us[i] - Count(ds, i, j) as real
  }

  /** `found` are the levels of a bucket that starts full, pays for admissions, gains and is capped. */
  ghost predicate Levels(burst: real, us: seq<real>, ds: seq<bool>, found: seq<real>) {
    && |us| == |ds| == |found|
    && (found != [] ==> found[0] == burst)
    && forall k :: 0 < k < |found| ==>
      found[k] == Capped(burst, found[k - 1] - Used(ds[k - 1]) + us[k] - us[k - 1])
  }

  /** Min-plus closed form: a level is the least slack over all windows that end there. */
  lemma {:induction false} MinPlus(burst: real, us: seq<real>, ds: seq<bool>, found: seq<real>, j: nat) returns (w: nat)
    requires Levels(burst, us, ds, found) && j < |found|
    ensures forall i: nat :: i <= j ==> found[j] <= Slack(burst, us, ds, i, j)
    ensures w <= j && found[j] == Slack(burst, us, ds, w, j)
    decreases j
  {
    if j == 0 {
      return 0;
    }
    var w' := MinPlus(burst, us, ds, found, j - 1);
    assert forall i: nat :: i < j ==>
      Slack(burst, us, ds, i, j) == Slack(burst, us, ds, i, j - 1) + us[j] - us[j - 1] - Used(ds[j - 1]);
    w := if found[j] == burst then j else w';
  }

  ghost predicate Fits(burst: real, us: seq<real>, ds: seq<bool>, j: nat)
    requires j < |us| == |ds|
  {
    forall i: nat :: i <= j ==> Slack(burst, us, ds, i, j) >= 1.0
  }

  ghost predicate Sorted(ts: seq<real>) {
    forall i, j :: 0 <= i <= j < |ts| ==> ts[i] <= ts[j]
  }

  /** If every admitted request fits and the clock never runs back, every window is bounded. */
  lemma {:induction false} BoundedWindows(burst: real, us: seq<real>, ds: seq<bool>, i: nat, j: nat)
    requires burst >= 0.0 && |us| == |ds| && Sorted(us)
    requires forall k :: 0 <= k < |ds| && ds[k] ==> Fits(burst, us, ds, k)
    requires i <= j < |us|
    ensures Count(ds, i, j + 1) as real <= burst + us[j] - us[i]
    decreases j
  {
    if ds[j] {
      assert Slack(burst, us, ds, i, j) >= 1.0;
    } else if i < j {
      BoundedWindows(burst, us, ds, i, j - 1);
    }
  }

  /** Whoever denies only what does not fit admits the most, on every prefix. */
  lemma {:induction false} GreedyDominates(burst: real, us: seq<real>, gs: seq<bool>, ds: seq<bool>, n: nat)
    requires |us| == |ds| == |gs| && n <= |us|
    requires forall k :: 0 <= k < |gs| && Fits(burst, us, gs, k) ==> gs[k]
    requires forall k :: 0 <= k < |ds| && ds[k] ==> Fits(burst, us, ds, k)
    ensures Count(ds, 0, n) <= Count(gs, 0, n)
    decreases n
  {
    if n > 0 {
      var j := n - 1;
      GreedyDominates(burst, us, gs, ds, j);
      if ds[j] && !gs[j] {
        // Some window ending at j is full for gs, hence gs admitted as many in it as ds.
        var i: nat :| i <= j && !(Slack(burst, us, gs, i, j) >= 1.0);
        assert Slack(burst, us, ds, i, j) >= 1.0;
        assert Count(ds, i, j) + 1 <= Count(gs, i, j);
        GreedyDominates(burst, us, gs, ds, i);
        CountSplit(gs, 0, i, j);
        CountSplit(ds, 0, i, j);
      }
    }
  }

  // ---- The limiter ----

  /** The tokens that each request of a fresh bucket finds. */
  ghost function Found(c: Config, ts: seq<real>): (found: seq<real>)
    ensures |found| == |ts|
  {
    seq(|ts|, j requires 0 <= j < |ts| => Available(c, After(c, None, ts[..j]), ts[j]))
  }

  lemma FoundNext(c: Config, b: Option<Bucket>, t0: real, t1: real)
    ensures Available(c, Some(Touch(c, b, t0)), t1)
         == Capped(c.burst as real, Available(c, b, t0) - Used(Admits(c, b, t0)) + Gain(c, t0, t1))
  {
  }

  lemma FoundAreLevels(c: Config, ts: seq<real>)
    ensures Levels(c.burst as real, Poured(c, ts), Decide(c, None, ts), Found(c, ts))
  {
    var us, ds, found := Poured(c, ts), Decide(c, None, ts), Found(c, ts);
    if ts != [] {
      assert ts[..0] == [];
    }
    forall k | 0 < k < |ts|
      ensures found[k] == Capped(c.burst as real, found[k - 1] - Used(ds[k - 1]) + us[k] - us[k - 1])
    {
      DecideAt(c, None, ts, k - 1);
      FoundNext(c, After(c, None, ts[..k - 1]), ts[k - 1], ts[k]);
      assert Gain(c, ts[k - 1], ts[k]) == us[k] - us[k - 1];
    }
  }

  /**
   The lazily refilled, capped token count in closed form: what a request finds is the
   least, over all windows ending at it, of burst + refill - admissions.
   */
  lemma TokensMinPlus(c: Config, ts: seq<real>, j: nat) returns (w: nat)
    requires j < |ts|
    ensures var ds := Decide(c, None, ts);
            && (forall i: nat :: i <= j ==>
                  Found(c, ts)[j] <= c.burst as real + Gain(c, ts[i], ts[j]) - Count(ds, i, j) as real)
            && w <= j && Found(c, ts)[j] == c.burst as real + Gain(c, ts[w], ts[j]) - Count(ds, w, j) as real
  {
    var us, ds, found := Poured(c, ts), Decide(c, None, ts), Found(c, ts);
    FoundAreLevels(c, ts);
    w := MinPlus(c.burst as real, us, ds, found, j);
    forall i: nat | i <= j
      ensures found[j] <= c.burst as real + Gain(c, ts[i], ts[j]) - Count(ds, i, j) as real
    {
      assert found[j] <= Slack(c.burst as real, us, ds, i, j);
    }
  }

  lemma LawIsFits(c: Config, ts: seq<real>, ds: seq<bool>, j: nat)
    requires j < |ts| && |ds| == |ts|
    ensures Law(c, ts, ds, j) <==> Fits(c.burst as real, Poured(c, ts), ds, j)
  {
    var burst, us := c.burst as real, Poured(c, ts);
    if Law(c, ts, ds, j) {
      forall i: nat | i <= j
        ensures Slack(burst, us, ds, i, j) >= 1.0
      {
        assert Gain(c, ts[i], ts[j]) == us[j] - us[i];
      }
    }
    if Fits(burst, us, ds, j) {
      forall i: nat | i <= j
        ensures Count(ds, i, j) as real + 1.0 <= burst + Gain(c, ts[i], ts[j])
      {
        assert Slack(burst, us, ds, i, j) >= 1.0;
      }
    }
  }

  /**
   The exact admission law.  From the second request of an IP on, a request is
   admitted if and only if it satisfies `Law`; the first one always is.
   No assumption on the rate, the burst size or the order of the times.
   */
  lemma ExactLaw(c: Config, ts: seq<real>, j: nat)
    requires j < |ts|
    ensures Decide(c, None, ts)[j] <==> j == 0 || Law(c, ts, Decide(c, None, ts), j)
  {
    var us, ds, found := Poured(c, ts), Decide(c, None, ts), Found(c, ts);
    DecideAt(c, None, ts, j);
    LawIsFits(c, ts, ds, j);
    if j > 0 {
      DecideAt(c, None, ts, j - 1);
      FoundAreLevels(c, ts);
      var w := MinPlus(c.burst as real, us, ds, found, j);
      assert ds[j] <==> found[j] >= 1.0;
      assert found[j] == Slack(c.burst as real, us, ds, w, j);
    }
  }

  /** Every decision of the trace is the one the law prescribes. */
  ghost predicate LawDecides(c: Config, ts: seq<real>) {
    forall j :: 0 <= j < |ts| ==> (Decide(c, None, ts)[j] <==> Law(c, ts, Decide(c, None, ts), j))
  }

  /** The law describes a whole trace exactly when the burst size is at least one. */
  lemma LawIffBurst(c: Config, ts: seq<real>)
    requires ts != []
    ensures LawDecides(c, ts) <==> c.burst >= 1
  {
    var ds := Decide(c, None, ts);
    forall j | 0 <= j < |ts|
      ensures ds[j] <==> j == 0 || Law(c, ts, ds, j)
    {
      ExactLaw(c, ts, j);
    }
    LawIsFits(c, ts, ds, 0);
    assert Slack(c.burst as real, Poured(c, ts), ds, 0, 0) == c.burst as real;
    assert Law(c, ts, ds, 0) <==> c.burst >= 1;
  }

  lemma GainNonNegative(c: Config, from: real, to: real)
    requires c.rate >= 0 && from <= to
    ensures Gain(c, from, to) >= 0.0
  {
  }

  lemma PouredSorted(c: Config, ts: seq<real>)
    requires c.rate >= 0 && Sorted(ts)
    ensures Sorted(Poured(c, ts))
  {
    var us := Poured(c, ts);
    forall i, j | 0 <= i <= j < |ts|
      ensures us[i] <= us[j]
    {
      GainNonNegative(c, ts[i], ts[j]);
    }
  }

  /** The limiter's decisions, as decisions over its refill clock. */
  lemma DecisionsFit(c: Config, ts: seq<real>)
    requires c.burst >= 1
    ensures forall k :: 0 <= k < |ts| ==>
              (Decide(c, None, ts)[k] <==> Fits(c.burst as real, Poured(c, ts), Decide(c, None, ts), k))
  {
    var ds := Decide(c, None, ts);
    forall k | 0 <= k < |ts|
      ensures ds[k] <==> Fits(c.burst as real, Poured(c, ts), ds, k)
    {
      LawIffBurst(c, ts);
      LawIsFits(c, ts, ds, k);
    }
  }

  /** No run of consecutive requests admits more than burst + rate * elapsed. */
  lemma WindowBound(c: Config, ts: seq<real>, i: nat, j: nat)
    requires c.burst >= 1 && c.rate >= 0 && Sorted(ts)
    requires i <= j < |ts|
    ensures Count(Decide(c, None, ts), i, j + 1) as real <= c.burst as real + Gain(c, ts[i], ts[j])
  {
    var us := Poured(c, ts);
    assert Gain(c, ts[i], ts[j]) == us[j] - us[i];
    assert Count(Decide(c, None, ts), i, j + 1) as real <= c.burst as real + us[j] - us[i] by {
      DecisionsFit(c, ts);
      PouredSorted(c, ts);
      BoundedWindows(c.burst as real, us, Decide(c, None, ts), i, j);
    }
  }

  /** The admitted requests whose time lies in [lo, hi]. */
  function During(ts: seq<real>, ds: seq<bool>, lo: real, hi: real): nat
    requires |ds| == |ts|
  {
    if ts == [] then 0
    else
      var n := |ts| - 1;
      During(ts[..n], ds[..n], lo, hi) + (if lo <= ts[n] <= hi && ds[n] then 1 else 0)
  }

  lemma {:induction false} CountPrefix(ds: seq<bool>, n: nat, i: nat, j: nat)
    requires j <= n <= |ds|
    ensures Count(ds[..n], i, j) == Count(ds, i, j)
    decreases j
  {
    if i < j {
      CountPrefix(ds, n, i, j - 1);
    }
  }

  lemma {:induction false} DuringWithin(ts: seq<real>, ds: seq<bool>, lo: real, hi: real, i: nat, j: nat)
    requires |ds| == |ts| && i <= j <= |ts|
    requires forall k :: 0 <= k < |ts| && (k < i || j <= k) ==> !(lo <= ts[k] <= hi)
    ensures During(ts, ds, lo, hi) <= Count(ds, i, j)
    decreases |ts|
  {
    if ts != [] {
      var n := |ts| - 1;
      if j <= n {
        DuringWithin(ts[..n], ds[..n], lo, hi, i, j);
        CountPrefix(ds, n, i, j);
      } else if i <= n {
        DuringWithin(ts[..n], ds[..n], lo, hi, i, n);
        CountPrefix(ds, n, i, n);
      } else {
        DuringWithin(ts[..n], ds[..n], lo, hi, n, n);
      }
    }
  }

  /** The indices of a sorted trace that fall into [lo, hi] are a run i..j-1. */
  lemma Run(ts: seq<real>, lo: real, hi: real) returns (i: nat, j: nat)
    requires Sorted(ts) && lo <= hi
    ensures i <= j <= |ts|
    ensures forall k :: 0 <= k < |ts| ==> (lo <= ts[k] <= hi <==> i <= k < j)
  {
    i := 0;
    while i < |ts| && ts[i] < lo
      invariant i <= |ts|
      invariant forall k :: 0 <= k < i ==> ts[k] < lo
    {
      i := i + 1;
    }
    j := i;
    while j < |ts| && ts[j] <= hi
      invariant i <= j <= |ts|
      invariant forall k :: i <= k < j ==> ts[k] <= hi
    {
      j := j + 1;
    }
    assert forall k :: i <= k < |ts| ==> lo <= ts[k];
    assert forall k :: j <= k < |ts| ==> hi < ts[k];
  }

  lemma GainMonotone(c: Config, from: real, to: real, lo: real, hi: real)
    requires c.rate >= 0 && lo <= from && to <= hi
    ensures Gain(c, from, to) <= Gain(c, lo, hi)
  {
    var d := (hi - lo) - (to - from);
    assert (hi - lo) * c.rate as real == (to - from) * c.rate as real + d * c.rate as real;
  }

  /** No time interval whatsoever admits more than burst + rate * length. */
  lemma IntervalBound(c: Config, ts: seq<real>, lo: real, hi: real)
    requires c.burst >= 1 && c.rate >= 0 && Sorted(ts) && lo <= hi
    ensures During(ts, Decide(c, None, ts), lo, hi) as real <= c.burst as real + Gain(c, lo, hi)
  {
    var ds := Decide(c, None, ts);
    var i, j := Run(ts, lo, hi);
    DuringWithin(ts, ds, lo, hi, i, j);
    GainNonNegative(c, lo, hi);
    if i < j {
      var w := j - 1;
      WindowBound(c, ts, i, w);
      GainMonotone(c, ts[i], ts[w], lo, hi);
    }
  }

  /** A decision sequence that never admits a request against the law. */
  ghost predicate Lawful(c: Config, ts: seq<real>, ds: seq<bool>) {
    |ds| == |ts| && forall j :: 0 <= j < |ts| && ds[j] ==> Law(c, ts, ds, j)
  }

  /**
   Greedy optimality: the limiter's decisions are lawful, and on every prefix of
   the trace they admit at least as many requests as any lawful decisions do.
   */
  lemma GreedyOptimal(c: Config, ts: seq<real>, ds: seq<bool>, n: nat)
    requires c.burst >= 1 && Lawful(c, ts, ds) && n <= |ts|
    ensures Lawful(c, ts, Decide(c, None, ts))
    ensures Count(ds, 0, n) <= Count(Decide(c, None, ts), 0, n)
  {
    var gs := Decide(c, None, ts);
    DecisionsFit(c, ts);
    forall k | 0 <= k < |ts|
      ensures Law(c, ts, gs, k) <==> Fits(c.burst as real, Poured(c, ts), gs, k)
      ensures Law(c, ts, ds, k) <==> Fits(c.burst as real, Poured(c, ts), ds, k)
    {
      LawIsFits(c, ts, gs, k);
      LawIsFits(c, ts, ds, k);
    }
    var us := Poured(c, ts);
    assert forall k :: 0 <= k < |gs| && Fits(c.burst as real, us, gs, k) ==> gs[k];
    assert forall k :: 0 <= k < |ds| && ds[k] ==> Fits(c.burst as real, us, ds, k);
    GreedyDominates(c.burst as real, us, gs, ds, n);
  }
}
