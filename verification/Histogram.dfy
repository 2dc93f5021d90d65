/** `_LatencyHistogram` and `_histogram_quantile`: a ladder of latency buckets crossed with
    a ring of time slots, and the quantile read off it. */
module LatencyLadder {
  import opened Wrappers

  const EDGES: seq<real> :=
    [5.0, 10.0, 25.0, 50.0, 100.0, 200.0, 400.0, 800.0, 1500.0, 3000.0, 6000.0, 12000.0, 30000.0, 60000.0, 120000.0]
  const BUCKETS: nat := 16

  lemma EdgesAscend()
    ensures |EDGES| == 15
    ensures forall i, j :: 0 <= i < j < |EDGES| ==> 0.0 < EDGES[i] < EDGES[j]
  {
  }

  /** `bisect_right` on the ladder, from position i on. */
  function BisectFrom(v: real, i: nat): (b: nat)
    requires i <= |EDGES|
    ensures i <= b <= |EDGES|
    ensures forall k :: i <= k < b ==> EDGES[k] <= v
    ensures b < |EDGES| ==> v < EDGES[b]
    decreases |EDGES| - i
  {
    if i < |EDGES| && EDGES[i] <= v then BisectFrom(v, i + 1) else i
  }

  function BucketOf(v: real): nat {
    BisectFrom(v, 0)
  }

  lemma BucketMonotone(v: real, w: real)
    requires v <= w
    ensures BucketOf(v) <= BucketOf(w)
  {
    EdgesAscend();
  }

  /** The closed range of bucket i; the open-ended top bucket is reported as its floor. */
  function Lower(i: nat): real {
    if i == 0 then 0.0 else if i <= |EDGES| then EDGES[i - 1] else EDGES[|EDGES| - 1]
  }

  function Upper(i: nat): real {
    if i < |EDGES| then EDGES[i] else EDGES[|EDGES| - 1]
  }

  lemma RangesAscend(i: nat, j: nat)
    requires i < j
    ensures 0.0 <= Lower(i) <= Upper(i) <= Lower(j) <= EDGES[|EDGES| - 1]
  {
    EdgesAscend();
  }

  function Prefix(b: seq<real>, i: nat): real
    requires i <= |b|
  {
    if i == 0 then 0.0 else Prefix(b, i - 1) + b[i - 1]
  }

  ghost predicate NonNegative(b: seq<real>) {
    forall i :: 0 <= i < |b| ==> b[i] >= 0.0
  }

  lemma {:induction false} PrefixMonotone(b: seq<real>, i: nat, j: nat)
    requires NonNegative(b) && i <= j <= |b|
    ensures 0.0 <= Prefix(b, i) <= Prefix(b, j)
  {
    if j > 0 {
      if i < j { PrefixMonotone(b, i, j - 1); } else { PrefixMonotone(b, i - 1, j - 1); }
    }
  }

  predicate Hits(b: seq<real>, target: real, i: nat)
    requires i < |b|
  {
    b[i] > 0.0 && Prefix(b, i) + b[i] >= target
  }

  /** The first bucket from i on at which the cumulative count reaches the target. */
  function HitFrom(b: seq<real>, target: real, i: nat): (h: nat)
    requires i <= |b|
    ensures i <= h <= |b|
    ensures h < |b| ==> Hits(b, target, h)
    ensures forall k :: i <= k < h ==> !Hits(b, target, k)
    decreases |b| - i
  {
    if i == |b| || Hits(b, target, i) then i else HitFrom(b, target, i + 1)
  }

  function Along(lower: real, upper: real, part: real, whole: real): real
    requires whole > 0.0
  {
    lower + (upper - lower) * (part / whole)
  }

  /** Where in bucket h the target falls. */
  function Interpolate(b: seq<real>, target: real, h: nat): real
    requires h <= |b| && (h < |b| ==> b[h] > 0.0)
  {
    if h == |b| || h >= |EDGES| then Lower(h)
    else Along(Lower(h), Upper(h), target - Prefix(b, h), b[h])
  }

  /** The value at which the cumulative count reaches the target. */
  function ValueAt(b: seq<real>, target: real): real {
    Interpolate(b, target, HitFrom(b, target, 0))
  }

  function Target(total: real, q: real): real {
    total * q
  }

  function QuantileOf(b: seq<real>, q: real): Option<real> {
    if Prefix(b, |b|) <= 0.0 then None else Some(ValueAt(b, Target(Prefix(b, |b|), q)))
  }

  /** `_histogram_quantile`. */
  method Quantile(b: seq<real>, q: real) returns (r: Option<real>)
    ensures r == QuantileOf(b, q)
    ensures NonNegative(b) ==> (r == None <==> forall i :: 0 <= i < |b| ==> b[i] == 0.0)
    ensures NonNegative(b) && 0.0 < q <= 1.0 && r.Some? ==> IsQuantile(b, q, r.value)
  {
    r := Scan(b, q);
    if NonNegative(b) {
      NoneIffEmpty(b, q);
      if 0.0 < q <= 1.0 && r.Some? { QuantileMass(b, q, r.value); }
    }
  }

  method Scan(b: seq<real>, q: real) returns (r: Option<real>)
    ensures r == QuantileOf(b, q)
  {
    var total := 0.0;
    for i := 0 to |b|
      invariant total == Prefix(b, i)
    {
      total := total + b[i];
    }
    if total <= 0.0 {
      return None;
    }
    var target := Target(total, q);
    assert QuantileOf(b, q) == Some(ValueAt(b, target));
    var cumulative := 0.0;
    var lower := 0.0;
    for i := 0 to |b|
      invariant cumulative == Prefix(b, i) && lower == Lower(i)
      invariant HitFrom(b, target, 0) == HitFrom(b, target, i)
    {
      var count := b[i];
      if count > 0.0 && cumulative + count >= target {
        if i >= |EDGES| {
          return Some(lower);
        }
        return Some(Along(lower, EDGES[i], target - cumulative, count));
      }
      cumulative := cumulative + count;
      if i < |EDGES| {
        lower := EDGES[i];
      }
    }
    assert HitFrom(b, target, |b|) == |b|;
    assert ValueAt(b, target) == lower;
    return Some(lower);
  }

  // ----- what the quantile means -----

  lemma {:induction false} PrefixZero(b: seq<real>, n: nat)
    requires NonNegative(b) && n <= |b|
    ensures Prefix(b, n) == 0.0 <==> forall i :: 0 <= i < n ==> b[i] == 0.0
  {
    if n > 0 {
      PrefixZero(b, n - 1);
      PrefixMonotone(b, 0, n - 1);
    }
  }

  /** None exactly when nothing was counted. */
  lemma NoneIffEmpty(b: seq<real>, q: real)
    requires NonNegative(b)
    ensures QuantileOf(b, q) == None <==> forall i :: 0 <= i < |b| ==> b[i] == 0.0
  {
    PrefixZero(b, |b|);
    PrefixMonotone(b, 0, |b|);
  }

  /** Everything before the hit stays short of the target, unless nothing comes before it. */
  lemma {:induction false} ShortOfTarget(b: seq<real>, target: real, i: nat)
    requires NonNegative(b) && i <= HitFrom(b, target, 0)
    ensures Prefix(b, i) == 0.0 || Prefix(b, i) < target
  {
    if i > 0 {
      ShortOfTarget(b, target, i - 1);
      assert !Hits(b, target, i - 1);
    }
  }

  /** A target within the total is hit. */
  lemma HitExists(b: seq<real>, target: real)
    requires NonNegative(b) && Prefix(b, |b|) > 0.0 && target <= Prefix(b, |b|)
    ensures HitFrom(b, target, 0) < |b|
  {
    if HitFrom(b, target, 0) == |b| {
      ShortOfTarget(b, target, |b|);
    }
  }

  lemma Fraction(width: real, part: real, whole: real)
    requires width >= 0.0 && 0.0 <= part <= whole && whole > 0.0
    ensures 0.0 <= width * (part / whole) <= width
  {
    assert 0.0 <= part / whole <= 1.0;
  }

  lemma AlongInRange(lower: real, upper: real, part: real, whole: real)
    requires lower <= upper && 0.0 <= part <= whole && whole > 0.0
    ensures lower <= Along(lower, upper, part, whole) <= upper
  {
    Fraction(upper - lower, part, whole);
  }

  lemma AlongMonotone(lower: real, upper: real, s: real, t: real, whole: real)
    requires lower <= upper && s <= t && whole > 0.0
    ensures Along(lower, upper, s, whole) <= Along(lower, upper, t, whole)
  {
    ScaleMonotone(upper - lower, s, t, whole);
  }

  /** The value lies in the closed range of the bucket that was hit. */
  lemma InterpolateInRange(b: seq<real>, target: real)
    requires NonNegative(b) && target >= 0.0
    requires HitFrom(b, target, 0) < |b|
    ensures var h := HitFrom(b, target, 0); Lower(h) <= Interpolate(b, target, h) <= Upper(h)
  {
    var h := HitFrom(b, target, 0);
    ShortOfTarget(b, target, h);
    RangesAscend(h, h + 1);
    if h < |EDGES| {
      AlongInRange(Lower(h), Upper(h), target - Prefix(b, h), b[h]);
    }
  }

  lemma TargetMonotone(total: real, q: real, r: real)
    requires total >= 0.0 && 0.0 <= q <= r
    ensures 0.0 <= Target(total, q) <= Target(total, r)
  {
    TimesNonNegative(total, q);
    TimesNonNegative(total, r - q);
    Distribute(total, q, r - q);
    assert q + (r - q) == r;
  }

  lemma TimesNonNegative(x: real, y: real)
    requires x >= 0.0 && y >= 0.0
    ensures x * y >= 0.0
  {
  }

  lemma Distribute(x: real, y: real, z: real)
    ensures x * (y + z) == x * y + x * z
  {
  }

  lemma ValueBounded(b: seq<real>, target: real)
    requires NonNegative(b) && target >= 0.0
    ensures 0.0 <= ValueAt(b, target) <= EDGES[|EDGES| - 1]
  {
    var h := HitFrom(b, target, 0);
    RangesAscend(h, h + 1);
    if h < |b| {
      InterpolateInRange(b, target);
    }
  }

  /** The quantile never leaves the ladder. */
  lemma QuantileBounded(b: seq<real>, q: real)
    requires NonNegative(b) && q >= 0.0 && QuantileOf(b, q).Some?
    ensures 0.0 <= QuantileOf(b, q).value <= EDGES[|EDGES| - 1]
  {
    TargetMonotone(Prefix(b, |b|), 0.0, q);
    ValueBounded(b, Target(Prefix(b, |b|), q));
  }

  lemma HitMonotone(b: seq<real>, s: real, t: real)
    requires s <= t
    ensures HitFrom(b, s, 0) <= HitFrom(b, t, 0)
  {
    var h := HitFrom(b, t, 0);
    if h < |b| {
      assert Hits(b, s, h);
    }
  }

  lemma ScaleMonotone(width: real, s: real, t: real, whole: real)
    requires width >= 0.0 && s <= t && whole > 0.0
    ensures width * (s / whole) <= width * (t / whole)
  {
    assert s / whole <= t / whole;
  }

  lemma SameBucketMonotone(b: seq<real>, s: real, t: real, h: nat)
    requires s <= t && h <= |b| && (h < |b| ==> b[h] > 0.0)
    ensures Interpolate(b, s, h) <= Interpolate(b, t, h)
  {
    if h < |b| && h < |EDGES| {
      RangesAscend(h, h + 1);
      AlongMonotone(Lower(h), Upper(h), s - Prefix(b, h), t - Prefix(b, h), b[h]);
    }
  }

  lemma ValueMonotone(b: seq<real>, s: real, t: real)
    requires NonNegative(b) && 0.0 <= s <= t
    ensures ValueAt(b, s) <= ValueAt(b, t)
  {
    HitMonotone(b, s, t);
    var g, h := HitFrom(b, s, 0), HitFrom(b, t, 0);
    if g < h {
      InterpolateInRange(b, s);
      RangesAscend(g, h);
      if h < |b| { InterpolateInRange(b, t); }
    } else {
      SameBucketMonotone(b, s, t, h);
    }
  }

  /** A larger q never gives a smaller value. */
  lemma QuantileMonotone(b: seq<real>, q: real, r: real)
    requires NonNegative(b) && 0.0 <= q <= r && QuantileOf(b, q).Some?
    ensures QuantileOf(b, r).Some? && QuantileOf(b, q).value <= QuantileOf(b, r).value
  {
    TargetMonotone(Prefix(b, |b|), q, r);
    ValueMonotone(b, Target(Prefix(b, |b|), q), Target(Prefix(b, |b|), r));
  }

  // ----- the mass below a value -----

  /** How much of an amount that is spread evenly from lower to upper lies below v. */
  function Spread(amount: real, lower: real, upper: real, v: real): real {
    if v <= lower then 0.0 else if v >= upper then amount else amount * ((v - lower) / (upper - lower))
  }

  /** How much of the first n buckets lies below v. Nothing is known of the open-ended top one. */
  function Mass(b: seq<real>, v: real, n: nat): real
    requires n <= |b|
  {
    if n == 0 then 0.0
    else Mass(b, v, n - 1) + if n - 1 < |EDGES| then Spread(b[n - 1], Lower(n - 1), Upper(n - 1), v) else 0.0
  }

  /** v is the least value with that much below it. */
  ghost predicate LeastWith(b: seq<real>, due: real, v: real) {
    Mass(b, v, |b|) == due && forall w :: w < v ==> Mass(b, w, |b|) < due
  }

  /** v is the least value below which that much lies; if the buckets below the top one do not
      hold it, v is the last edge. */
  ghost predicate Reaches(b: seq<real>, due: real, v: real) {
    if due <= Prefix(b, if |b| < |EDGES| then |b| else |EDGES|) then LeastWith(b, due, v)
    else v == EDGES[|EDGES| - 1]
  }

  /** v is the value below which there lies the part q of all that was counted. */
  ghost predicate IsQuantile(b: seq<real>, q: real, v: real) {
    Reaches(b, Due(b, q), v)
  }

  function Due(b: seq<real>, q: real): real {
    Prefix(b, |b|) * q
  }

  lemma DueIs(b: seq<real>, q: real)
    ensures Due(b, q) == Target(Prefix(b, |b|), q)
  {
  }

  /** The ranges are those of the values in the buckets. */
  lemma BucketRange(v: real)
    requires v >= 0.0
    ensures Lower(BucketOf(v)) <= v
    ensures if BucketOf(v) < |EDGES| then v < Upper(BucketOf(v)) else v >= EDGES[|EDGES| - 1]
  {
    EdgesAscend();
  }

  lemma Scaled(c: real, x: real)
    requires c >= 0.0 && 0.0 <= x <= 1.0
    ensures 0.0 <= c * x <= c
  {
  }

  lemma ScaledLess(c: real, x: real, y: real)
    requires c > 0.0 && x < y
    ensures c * x < c * y
  {
  }

  lemma RatioLess(s: real, t: real, whole: real)
    requires s < t && whole > 0.0
    ensures s / whole < t / whole
  {
  }

  lemma Cancel(width: real, x: real)
    requires width > 0.0
    ensures (width * x) / width == x
  {
  }

  lemma SpreadRange(amount: real, lower: real, upper: real, v: real)
    requires amount >= 0.0
    ensures 0.0 <= Spread(amount, lower, upper, v) <= amount
  {
    if lower < v < upper {
      RatioLess(0.0, v - lower, upper - lower);
      RatioLess(v - lower, upper - lower, upper - lower);
      Scaled(amount, (v - lower) / (upper - lower));
    }
  }

  lemma SpreadLess(amount: real, lower: real, upper: real, w: real, v: real)
    requires amount > 0.0 && lower < w < v <= upper
    ensures Spread(amount, lower, upper, w) < Spread(amount, lower, upper, v)
  {
    RatioLess(w - lower, v - lower, upper - lower);
    ScaledLess(amount, (w - lower) / (upper - lower), (v - lower) / (upper - lower));
  }

  lemma SpreadAlong(lower: real, upper: real, part: real, whole: real)
    requires lower < upper && 0.0 < part <= whole
    ensures lower < Along(lower, upper, part, whole) <= upper
    ensures Spread(whole, lower, upper, Along(lower, upper, part, whole)) == part
  {
    var x, width := part / whole, upper - lower;
    RatioLess(0.0, part, whole);
    ScaledLess(width, 0.0, x);
    Cancel(width, x);
    if part < whole {
      RatioLess(part, whole, whole);
      ScaledLess(width, x, 1.0);
    }
  }

  lemma Outside(v: real, h: nat, j: nat)
    requires Lower(h) < v <= Upper(h)
    ensures j < h ==> v >= Upper(j) && v > Lower(j)
    ensures j > h ==> v <= Lower(j)
  {
    if j < h {
      RangesAscend(j, h);
    } else if j > h {
      RangesAscend(h, j);
    }
  }

  /** Up to a value within bucket h there lie all the buckets before it and a part of it. */
  lemma {:induction false} MassWithin(b: seq<real>, v: real, h: nat, n: nat)
    requires n <= |b| && h < |EDGES| && h < |b| && Lower(h) < v <= Upper(h)
    ensures Mass(b, v, n) ==
              if n <= h then Prefix(b, n) else Prefix(b, h) + Spread(b[h], Lower(h), Upper(h), v)
  {
    if n > 0 {
      MassWithin(b, v, h, n - 1);
      Outside(v, h, n - 1);
    }
  }

  lemma FloorsAscend(h: nat, j: nat)
    requires h <= j
    ensures Lower(h) <= Lower(j)
  {
    if h < j { RangesAscend(h, j); }
  }

  /** Up to a value at most at the floor of bucket h there lies no more than what is before it. */
  lemma {:induction false} MassBefore(b: seq<real>, v: real, h: nat, n: nat)
    requires NonNegative(b) && n <= |b| && h <= |b| && v <= Lower(h)
    ensures Mass(b, v, n) <= Prefix(b, if n <= h then n else h)
  {
    if n > 0 {
      MassBefore(b, v, h, n - 1);
      SpreadRange(b[n - 1], Lower(n - 1), Upper(n - 1), v);
      if n > h { FloorsAscend(h, n - 1); }
    }
  }

  /** Any value before the one at which the mass within a bucket is reached has less. */
  lemma MassLess(b: seq<real>, h: nat, w: real, v: real, due: real)
    requires NonNegative(b) && h < |EDGES| && h < |b| && b[h] > 0.0 && w < v && Lower(h) < v <= Upper(h)
    requires Prefix(b, h) < due == Mass(b, v, |b|)
    ensures Mass(b, w, |b|) < due
  {
    if w <= Lower(h) {
      MassBefore(b, w, h, |b|);
    } else {
      MassWithin(b, v, h, |b|);
      MassWithin(b, w, h, |b|);
      SpreadLess(b[h], Lower(h), Upper(h), w, v);
    }
  }

  lemma RangeNotEmpty(h: nat)
    requires h < |EDGES|
    ensures Lower(h) < Upper(h)
  {
    EdgesAscend();
  }

  /** Below the value at which a bucket under the top one is hit lies exactly the target. */
  lemma HitMass(b: seq<real>, due: real, h: nat)
    requires h < |b| && h < |EDGES| && b[h] > 0.0 && Prefix(b, h) < due <= Prefix(b, h) + b[h]
    ensures var v := Interpolate(b, due, h); Lower(h) < v <= Upper(h) && Mass(b, v, |b|) == due
  {
    RangeNotEmpty(h);
    SpreadAlong(Lower(h), Upper(h), due - Prefix(b, h), b[h]);
    MassWithin(b, Interpolate(b, due, h), h, |b|);
  }

  /** A target is hit below the top bucket exactly when the buckets there hold as much. */
  lemma HitBelow(b: seq<real>, due: real, m: nat)
    requires NonNegative(b) && 0.0 < due <= Prefix(b, |b|) && m <= |b|
    ensures var h := HitFrom(b, due, 0);
            h < |b| && (Prefix(b, h) < due <= Prefix(b, h) + b[h]) && (h < m <==> due <= Prefix(b, m))
  {
    HitExists(b, due);
    var h := HitFrom(b, due, 0);
    ShortOfTarget(b, due, h);
    if h < m { PrefixMonotone(b, h + 1, m); } else { ShortOfTarget(b, due, m); }
  }

  lemma HitLeast(b: seq<real>, due: real, h: nat)
    requires NonNegative(b) && h < |b| && h < |EDGES| && b[h] > 0.0
    requires Prefix(b, h) < due <= Prefix(b, h) + b[h]
    ensures LeastWith(b, due, Interpolate(b, due, h))
  {
    var v := Interpolate(b, due, h);
    HitMass(b, due, h);
    forall w | w < v ensures Mass(b, w, |b|) < due { MassLess(b, h, w, v, due); }
  }

  lemma ValueMass(b: seq<real>, due: real)
    requires NonNegative(b) && 0.0 < due <= Prefix(b, |b|)
    ensures Reaches(b, due, ValueAt(b, due))
  {
    var h, m := HitFrom(b, due, 0), if |b| < |EDGES| then |b| else |EDGES|;
    HitBelow(b, due, m);
    if h < m { HitLeast(b, due, h); }
  }

  lemma DueInRange(b: seq<real>, q: real)
    requires Prefix(b, |b|) > 0.0 && 0.0 < q <= 1.0
    ensures 0.0 < Due(b, q) <= Prefix(b, |b|)
  {
    TargetInRange(Prefix(b, |b|), q);
  }

  /** What the quantile means: the least value with the part q of the mass below it. */
  lemma QuantileMass(b: seq<real>, q: real, v: real)
    requires NonNegative(b) && 0.0 < q <= 1.0 && QuantileOf(b, q) == Some(v)
    ensures IsQuantile(b, q, v)
  {
    DueIs(b, q);
    DueInRange(b, q);
    ValueMass(b, Due(b, q));
  }

  // ----- ranks -----

  /** How many values fall in bucket j, in a bucket before j, below v, or at most at v. */
  function InBucket(vals: seq<real>, j: nat): nat {
    if vals == [] then 0
    else InBucket(vals[..|vals| - 1], j) + if BucketOf(vals[|vals| - 1]) == j then 1 else 0
  }

  function BeforeBucket(vals: seq<real>, j: nat): nat {
    if vals == [] then 0
    else BeforeBucket(vals[..|vals| - 1], j) + if BucketOf(vals[|vals| - 1]) < j then 1 else 0
  }

  function Below(vals: seq<real>, v: real): nat {
    if vals == [] then 0 else Below(vals[..|vals| - 1], v) + if vals[|vals| - 1] < v then 1 else 0
  }

  function AtMost(vals: seq<real>, v: real): nat {
    if vals == [] then 0 else AtMost(vals[..|vals| - 1], v) + if vals[|vals| - 1] <= v then 1 else 0
  }

  /** v is the k-th smallest of the values. */
  predicate IsKthSmallest(vals: seq<real>, k: nat, v: real) {
    v in vals && Below(vals, v) < k <= AtMost(vals, v)
  }

  lemma {:induction false} AllAtMost(vals: seq<real>, v: real)
    requires forall i :: 0 <= i < |vals| ==> vals[i] <= v
    ensures AtMost(vals, v) == |vals|
  {
    if vals != [] { AllAtMost(vals[..|vals| - 1], v); }
  }

  lemma {:induction false} NoneBelow(vals: seq<real>, v: real)
    requires forall i :: 0 <= i < |vals| ==> vals[i] >= v
    ensures Below(vals, v) == 0
  {
    if vals != [] { NoneBelow(vals[..|vals| - 1], v); }
  }

  lemma {:induction false} BelowIsAtMost(vals: seq<real>, v: real, u: real)
    requires forall i :: 0 <= i < |vals| ==> (vals[i] < v <==> vals[i] <= u)
    ensures Below(vals, v) == AtMost(vals, u)
  {
    if vals != [] { BelowIsAtMost(vals[..|vals| - 1], v, u); }
  }

  /** The greatest of the first n values that lie below bound, if there is one. */
  lemma {:induction false} Greatest(vals: seq<real>, n: nat, bound: real) returns (found: bool, m: nat)
    requires n <= |vals|
    ensures found ==> m < n && vals[m] < bound && forall i :: 0 <= i < n && vals[i] < bound ==> vals[i] <= vals[m]
    ensures !found ==> forall i :: 0 <= i < n ==> vals[i] >= bound
  {
    if n == 0 {
      found, m := false, 0;
    } else {
      found, m := Greatest(vals, n - 1, bound);
      if vals[n - 1] < bound && (!found || vals[n - 1] > vals[m]) { found, m := true, n - 1; }
    }
  }

  /** The least of the first n values at most at which at least k values lie, if there is one. */
  lemma {:induction false} LeastEnough(vals: seq<real>, n: nat, k: nat) returns (found: bool, m: nat)
    requires n <= |vals|
    ensures found ==> m < n && AtMost(vals, vals[m]) >= k
    ensures found ==> forall i :: 0 <= i < n && AtMost(vals, vals[i]) >= k ==> vals[m] <= vals[i]
    ensures !found ==> forall i :: 0 <= i < n ==> AtMost(vals, vals[i]) < k
  {
    if n == 0 {
      found, m := false, 0;
    } else {
      found, m := LeastEnough(vals, n - 1, k);
      if AtMost(vals, vals[n - 1]) >= k && (!found || vals[n - 1] < vals[m]) { found, m := true, n - 1; }
    }
  }

  lemma {:induction false} UpperBound(vals: seq<real>) returns (bound: real)
    ensures forall i :: 0 <= i < |vals| ==> vals[i] < bound
  {
    if vals == [] {
      bound := 0.0;
    } else {
      bound := UpperBound(vals[..|vals| - 1]);
      if bound <= vals[|vals| - 1] { bound := vals[|vals| - 1] + 1.0; }
    }
  }

  /** Any n values have a k-th smallest one for each k from 1 to n. */
  lemma KthExists(vals: seq<real>, k: nat) returns (v: real)
    requires 0 < k <= |vals|
    ensures IsKthSmallest(vals, k, v)
  {
    var bound := UpperBound(vals);
    var some, top := Greatest(vals, |vals|, bound);
    assert vals[0] < bound;
    AllAtMost(vals, vals[top]);
    var enough, m := LeastEnough(vals, |vals|, k);
    v := vals[m];
    var below, u := Greatest(vals, |vals|, v);
    if below {
      BelowIsAtMost(vals, v, vals[u]);
    } else {
      NoneBelow(vals, v);
    }
  }

  /** The values counted by bucket. */
  function Tally(vals: seq<real>): seq<real> {
    seq(BUCKETS, j requires 0 <= j => InBucket(vals, j) as real)
  }

  /** b counts the values by bucket. */
  ghost predicate Tallies(b: seq<real>, vals: seq<real>) {
    |b| == BUCKETS && forall j :: 0 <= j < |b| ==> b[j] == InBucket(vals, j) as real
  }

  lemma TallyIsQuantile(b: seq<real>, vals: seq<real>, q: real)
    requires Tallies(b, vals) && 0.0 < q <= 1.0
    ensures QuantileOf(b, q).Some? ==> IsQuantile(Tally(vals), q, QuantileOf(b, q).value)
  {
    if QuantileOf(b, q).Some? {
      QuantileMass(b, q, QuantileOf(b, q).value);
      assert b == Tally(vals);
    }
  }

  lemma {:induction false} BeforeStep(vals: seq<real>, j: nat)
    ensures BeforeBucket(vals, j + 1) == BeforeBucket(vals, j) + InBucket(vals, j)
    ensures BeforeBucket(vals, 0) == 0
  {
    if vals != [] { BeforeStep(vals[..|vals| - 1], j); }
  }

  lemma {:induction false} PrefixCounts(b: seq<real>, vals: seq<real>, i: nat)
    requires Tallies(b, vals) && i <= |b|
    ensures Prefix(b, i) == BeforeBucket(vals, i) as real
  {
    BeforeStep(vals, 0);
    if i > 0 {
      PrefixCounts(b, vals, i - 1);
      BeforeStep(vals, i - 1);
    }
  }

  lemma {:induction false} AllBefore(vals: seq<real>)
    ensures BeforeBucket(vals, BUCKETS) == |vals|
  {
    if vals != [] { AllBefore(vals[..|vals| - 1]); }
  }

  lemma {:induction false} LowBucket(vals: seq<real>, v: real, i: nat)
    requires BucketOf(v) < i
    ensures AtMost(vals, v) <= BeforeBucket(vals, i)
  {
    if vals != [] {
      LowBucket(vals[..|vals| - 1], v, i);
      var w := vals[|vals| - 1];
      if w <= v { BucketMonotone(w, v); }
    }
  }

  lemma {:induction false} HighBucket(vals: seq<real>, v: real, i: nat)
    requires BucketOf(v) >= i
    ensures Below(vals, v) >= BeforeBucket(vals, i)
  {
    if vals != [] {
      HighBucket(vals[..|vals| - 1], v, i);
      var w := vals[|vals| - 1];
      if v <= w { BucketMonotone(v, w); }
    }
  }

  lemma ValueRank(b: seq<real>, vals: seq<real>, target: real, k: nat, v: real)
    requires Tallies(b, vals) && 0.0 < target <= Prefix(b, |b|)
    requires (k - 1) as real < target <= k as real && IsKthSmallest(vals, k, v)
    ensures Lower(BucketOf(v)) <= ValueAt(b, target) <= Upper(BucketOf(v))
  {
    HitExists(b, target);
    HitBucket(b, vals, target, k, v);
    InterpolateInRange(b, target);
  }

  lemma TargetInRange(total: real, q: real)
    requires total > 0.0 && 0.0 < q <= 1.0
    ensures 0.0 < Target(total, q) <= total
  {
    assert total * (1.0 - q) >= 0.0;
  }

  /** For n values and q in (0, 1], the reported quantile lies in the closed range of the
      bucket that holds the ceil(q * n)-th smallest value. */
  lemma QuantileRank(b: seq<real>, vals: seq<real>, q: real, k: nat, v: real)
    requires Tallies(b, vals) && 0.0 < q <= 1.0
    requires (k - 1) as real < Target(|vals| as real, q) <= k as real
    requires IsKthSmallest(vals, k, v)
    ensures QuantileOf(b, q).Some?
    ensures Lower(BucketOf(v)) <= QuantileOf(b, q).value <= Upper(BucketOf(v))
  {
    PrefixCounts(b, vals, |b|);
    AllBefore(vals);
    assert Prefix(b, |b|) == |vals| as real;
    TargetInRange(|vals| as real, q);
    ValueRank(b, vals, Target(|vals| as real, q), k, v);
  }

  /** For any values and q there is such a rank, and a value that has it. */
  lemma RankExists(vals: seq<real>, q: real) returns (k: nat, v: real)
    requires vals != [] && 0.0 < q <= 1.0
    ensures (k - 1) as real < Target(|vals| as real, q) <= k as real && IsKthSmallest(vals, k, v)
  {
    var n := |vals|;
    var t := Target(n as real, q);
    TargetInRange(n as real, q);
    k := if t.Floor as real == t then t.Floor else t.Floor + 1;
    v := KthExists(vals, k);
  }

  lemma HitBucket(b: seq<real>, vals: seq<real>, target: real, k: nat, v: real)
    requires Tallies(b, vals) && (k - 1) as real < target <= k as real && target > 0.0
    requires IsKthSmallest(vals, k, v) && HitFrom(b, target, 0) < |b|
    ensures BucketOf(v) == HitFrom(b, target, 0)
  {
    var h := HitFrom(b, target, 0);
    ShortOfTarget(b, target, h);
    PrefixCounts(b, vals, h);
    PrefixCounts(b, vals, h + 1);
    if BucketOf(v) < h {
      LowBucket(vals, v, h);
    } else if BucketOf(v) > h {
      HighBucket(vals, v, h + 1);
    }
  }
}

module LatencyHistograms {
  import opened Wrappers
  import opened SlotRing
  import opened LatencyLadder

  const SLOTS: nat := 60
  const WIDTH_S: nat := 5
  const SPAN: Span := Span(0, SLOTS, WIDTH_S)

  /** The flat index of bucket j in slot s. */
  function Cell(s: nat, j: nat): (c: nat)
    ensures s < SLOTS && j < BUCKETS ==> c < SLOTS * BUCKETS
  {
    s * BUCKETS + j
  }

  datatype Sample = Sample(at: real, ms: real)

  /** One bucket's view of a sample: it weighs 1 in its own bucket, 0 elsewhere. */
  function Share(s: Sample, j: nat): Event {
    Event(s.at, if BucketOf(s.ms) == j then 1.0 else 0.0)
  }

  function Weighted(log: seq<Sample>, j: nat): (es: seq<Event>)
    ensures |es| == |log|
    ensures forall i :: 0 <= i < |es| ==> es[i] == Share(log[i], j)
  {
    if log == [] then []
    else Weighted(log[..|log| - 1], j) + [Share(log[|log| - 1], j)]
  }

  /** The values still inside the window. */
  function Live(log: seq<Sample>, oldest: int): seq<real> {
    if log == [] then []
    else
      var s := log[|log| - 1];
      Live(log[..|log| - 1], oldest) + if Tick(s.at, SPAN) >= oldest then [s.ms] else []
  }

  lemma InBucketAppend(vals: seq<real>, x: real, j: nat)
    ensures InBucket(vals + [x], j) == InBucket(vals, j) + if BucketOf(x) == j then 1 else 0
  {
    assert (vals + [x])[..|vals|] == vals;
  }

  lemma {:induction false} LiveCounted(log: seq<Sample>, j: nat, oldest: int)
    ensures Recorded(Weighted(log, j), SPAN, oldest) == InBucket(Live(log, oldest), j) as real
  {
    if log != [] {
      var l, s := log[..|log| - 1], log[|log| - 1];
      LiveCounted(l, j, oldest);
      RecordedAppend(Weighted(l, j), Share(s, j), SPAN, oldest);
      if Tick(s.at, SPAN) >= oldest {
        InBucketAppend(Live(l, oldest), s.ms, j);
      } else {
        assert Live(l, oldest) + [] == Live(l, oldest);
      }
    }
  }

  /** What the arrays hold: in slot s and bucket j, that bucket's view of the samples. */
  ghost predicate RowHolds(counts: seq<real>, ticks: seq<int>, log: seq<Sample>, s: nat)
    requires |ticks| == SLOTS && |counts| == SLOTS * BUCKETS && s < SLOTS
  {
    forall j :: 0 <= j < BUCKETS ==>
      Slot(ticks[s], counts[Cell(s, j)]) == SlotAfter(Weighted(log, j), SPAN, s)
  }

  lemma WeightedAppend(log: seq<Sample>, x: Sample, j: nat)
    ensures Weighted(log + [x], j) == Weighted(log, j) + [Share(x, j)]
  {
    assert (log + [x])[..|log|] == log;
  }

  lemma OtherRow(counts: seq<real>, ticks: seq<int>, counts': seq<real>, ticks': seq<int>, log: seq<Sample>,
                 x: Sample, s: nat)
    requires |ticks| == |ticks'| == SLOTS && |counts| == |counts'| == SLOTS * BUCKETS && s < SLOTS
    requires RowHolds(counts, ticks, log, s) && Tick(x.at, SPAN) % SLOTS != s
    requires ticks'[s] == ticks[s] && forall j :: 0 <= j < BUCKETS ==> counts'[Cell(s, j)] == counts[Cell(s, j)]
    ensures RowHolds(counts', ticks', log + [x], s)
  {
    forall j | 0 <= j < BUCKETS
      ensures Slot(ticks'[s], counts'[Cell(s, j)]) == SlotAfter(Weighted(log + [x], j), SPAN, s)
    {
      WeightedAppend(log, x, j);
      var es := Weighted(log, j);
      assert (es + [Share(x, j)])[..|es|] == es;
    }
  }

  lemma ThisRow(counts: seq<real>, ticks: seq<int>, counts': seq<real>, ticks': seq<int>, log: seq<Sample>, x: Sample)
    requires |ticks| == |ticks'| == SLOTS && |counts| == |counts'| == SLOTS * BUCKETS
    requires var s := Tick(x.at, SPAN) % SLOTS;
             && RowHolds(counts, ticks, log, s)
             && ticks'[s] == Tick(x.at, SPAN)
             && forall j :: 0 <= j < BUCKETS ==>
                  counts'[Cell(s, j)] == (if ticks[s] != Tick(x.at, SPAN) then 0.0 else counts[Cell(s, j)])
                    + if BucketOf(x.ms) == j then 1.0 else 0.0
    ensures RowHolds(counts', ticks', log + [x], Tick(x.at, SPAN) % SLOTS)
  {
    var s := Tick(x.at, SPAN) % SLOTS;
    forall j | 0 <= j < BUCKETS
      ensures Slot(ticks'[s], counts'[Cell(s, j)]) == SlotAfter(Weighted(log + [x], j), SPAN, s)
    {
      WeightedAppend(log, x, j);
      var es := Weighted(log, j);
      assert (es + [Share(x, j)])[..|es|] == es;
    }
  }

  /** The cells of the sample's slot are cleared if stale and its bucket counts one more. */
  ghost predicate Counted(counts: seq<real>, ticks: seq<int>, counts': seq<real>, ticks': seq<int>, x: Sample)
    requires |ticks| == |ticks'| == SLOTS && |counts| == |counts'| == SLOTS * BUCKETS
  {
    var tick := Tick(x.at, SPAN);
    var slot := tick % SLOTS;
    && ticks' == ticks[slot := tick]
    && (forall s, j :: 0 <= s < SLOTS && s != slot && 0 <= j < BUCKETS ==> counts'[Cell(s, j)] == counts[Cell(s, j)])
    && (forall j :: 0 <= j < BUCKETS ==>
          counts'[Cell(slot, j)] == (if ticks[slot] != tick then 0.0 else counts[Cell(slot, j)])
            + if BucketOf(x.ms) == j then 1.0 else 0.0)
  }

  lemma RowsHold(counts: seq<real>, ticks: seq<int>, counts': seq<real>, ticks': seq<int>, log: seq<Sample>, x: Sample)
    requires |ticks| == |ticks'| == SLOTS && |counts| == |counts'| == SLOTS * BUCKETS
    requires forall s :: 0 <= s < SLOTS ==> RowHolds(counts, ticks, log, s)
    requires Counted(counts, ticks, counts', ticks', x)
    ensures forall s :: 0 <= s < SLOTS ==> RowHolds(counts', ticks', log + [x], s)
  {
    forall s | 0 <= s < SLOTS ensures RowHolds(counts', ticks', log + [x], s) {
      if s == Tick(x.at, SPAN) % SLOTS {
        ThisRow(counts, ticks, counts', ticks', log, x);
      } else {
        OtherRow(counts, ticks, counts', ticks', log, x, s);
      }
    }
  }

  /** acc is the snapshot over the first k slots. */
  ghost predicate SumsTo(log: seq<Sample>, k: nat, oldest: int, acc: seq<real>) {
    |acc| == BUCKETS && forall j :: 0 <= j < BUCKETS ==> acc[j] == RingTotal(Weighted(log, j), SPAN, k, oldest)
  }

  /** One slot's row more. */
  lemma SumsOn(counts: seq<real>, ticks: seq<int>, log: seq<Sample>, s: nat, oldest: int, acc: seq<real>,
               sum: seq<real>)
    requires |ticks| == SLOTS && |counts| == SLOTS * BUCKETS && s < SLOTS && RowHolds(counts, ticks, log, s)
    requires SumsTo(log, s, oldest, acc) && |sum| == BUCKETS
    requires forall j :: 0 <= j < BUCKETS ==> sum[j] == acc[j] + if ticks[s] >= oldest then counts[Cell(s, j)] else 0.0
    ensures SumsTo(log, s + 1, oldest, sum)
  {
  }

  class LatencyHistogram {
    const counts: array<real>
    const ticks: array<int>
    /** Every sample ever observed. */
    ghost var log: seq<Sample>

    ghost predicate Valid()
      reads this, counts, ticks
    {
      && ticks.Length == SLOTS && counts.Length == SLOTS * BUCKETS
      && forall s :: 0 <= s < SLOTS ==> RowHolds(counts[..], ticks[..], log, s)
    }

    constructor ()
      ensures Valid() && log == [] && fresh(counts) && fresh(ticks)
    {
      counts := new real[SLOTS * BUCKETS](_ => 0.0);
      ticks := new int[SLOTS](_ => 0);
      log := [];
    }

    method Observe(now: real, ms: real)
      requires Valid()
      modifies this, counts, ticks
      ensures Valid() && log == old(log) + [Sample(now, ms)]
    {
      var tick := Tick(now, SPAN);
      var slot := tick % SLOTS;
      var base := slot * BUCKETS;
      ghost var counts0, ticks0 := counts[..], ticks[..];
      if ticks[slot] != tick {
        ticks[slot] := tick;
        forall j | 0 <= j < BUCKETS {
          counts[base + j] := 0.0;
        }
      }
      var b := BucketOf(ms);
      counts[base + b] := counts[base + b] + 1.0;
      ghost var x := Sample(now, ms);
      log := log + [x];
      RowsHold(counts0, ticks0, counts[..], ticks[..], old(log), x);
    }

    /** The inner loop of snapshot: add one slot's row to the totals. */
    method AddRow(acc: seq<real>, slot: nat) returns (sum: seq<real>)
      requires Valid() && |acc| == BUCKETS && slot < SLOTS
      ensures |sum| == BUCKETS && forall k :: 0 <= k < BUCKETS ==> sum[k] == acc[k] + counts[..][Cell(slot, k)]
    {
      var base := slot * BUCKETS;
      sum := acc;
      for j := 0 to BUCKETS
        invariant |sum| == BUCKETS
        invariant forall k :: 0 <= k < j ==> sum[k] == acc[k] + counts[..][Cell(slot, k)]
        invariant forall k :: j <= k < BUCKETS ==> sum[k] == acc[k]
      {
        assert Cell(slot, j) == base + j;
        sum := sum[j := sum[j] + counts[base + j]];
      }
    }

    /** The counts per bucket over the slots that are still inside the window. */
    method Snapshot(now: real) returns (acc: seq<real>)
      requires Valid()
      ensures IsSnapshot(log, Oldest(now, SPAN), acc)
    {
      var oldest := Oldest(now, SPAN);
      acc := seq(BUCKETS, _ => 0.0);
      for slot := 0 to SLOTS
        invariant SumsTo(log, slot, oldest, acc)
      {
        ghost var before := acc;
        if ticks[slot] >= oldest {
          acc := AddRow(acc, slot);
        }
        SumsOn(counts[..], ticks[..], log, slot, oldest, before, acc);
      }
    }

    /** One percentile of `latency_payload`, before rounding. */
    method Percentile(now: real, q: real) returns (r: Option<real>)
      requires Valid()
      ensures SamplesKept(log, Oldest(now, SPAN)) && 0.0 < q <= 1.0 ==>
        var vals := Live(log, Oldest(now, SPAN));
        && (r == None <==> vals == [])
        && (r.Some? ==> IsQuantile(Tally(vals), q, r.value))
        && (forall k: nat, v ::
             (k - 1) as real < Target(|vals| as real, q) <= k as real && IsKthSmallest(vals, k, v) ==>
              r.Some? && Lower(BucketOf(v)) <= r.value <= Upper(BucketOf(v)))
    {
      var buckets := Snapshot(now);
      r := Quantile(buckets, q);
      if SamplesKept(log, Oldest(now, SPAN)) && 0.0 < q <= 1.0 {
        PercentileExact(log, Oldest(now, SPAN), q, buckets);
      }
    }
  }

  /** No sample that the window should count was overwritten. The times alone decide it, so
      that any bucket's view of the samples will do. */
  ghost predicate SamplesKept(log: seq<Sample>, oldest: int) {
    Kept(Weighted(log, 0), SPAN, oldest)
  }

  lemma KeptInView(log: seq<Sample>, oldest: int, j: nat)
    ensures Kept(Weighted(log, j), SPAN, oldest) <==> SamplesKept(log, oldest)
  {
    KeptByTimes(Weighted(log, j), Weighted(log, 0), SPAN, oldest);
  }

  /** A clock that never ran backwards up to now keeps them, and so do steps back by less than
      the span if no sample lies in a later bucket than now. */
  lemma SmallStepsKeepSamples(log: seq<Sample>, now: real)
    requires SmallSteps(Weighted(log, 0), SPAN) && NoneLater(Weighted(log, 0), SPAN, now)
    ensures SamplesKept(log, Oldest(now, SPAN))
  {
    SmallStepsKeep(Weighted(log, 0), SPAN, now);
  }

  lemma NondecreasingKeepsSamples(log: seq<Sample>, now: real)
    requires forall i, j :: 0 <= i < j < |log| ==> log[i].at <= log[j].at
    requires forall i :: 0 <= i < |log| ==> log[i].at <= now
    ensures SamplesKept(log, Oldest(now, SPAN))
  {
    NondecreasingKeeps(Weighted(log, 0), SPAN, now);
  }

  /** Each bucket holds what the ring shows of its view of the samples. */
  ghost predicate IsSnapshot(log: seq<Sample>, oldest: int, buckets: seq<real>) {
    && |buckets| == BUCKETS
    && forall j :: 0 <= j < BUCKETS ==> buckets[j] == RingTotal(Weighted(log, j), SPAN, SLOTS, oldest)
  }

  /** An overwritten sample is missing from its bucket. */
  lemma SnapshotMisses(log: seq<Sample>, oldest: int, i: nat, k: nat)
    requires i < k < |log|
    requires var fs := Weighted(log, 0); TickOf(fs, SPAN, i) >= oldest && Overwrites(fs, SPAN, i, k)
    ensures var j := BucketOf(log[i].ms);
            RingTotal(Weighted(log, j), SPAN, SLOTS, oldest) < InBucket(Live(log, oldest), j) as real
  {
    var j := BucketOf(log[i].ms);
    var es, fs := Weighted(log, j), Weighted(log, 0);
    assert es[i].at == fs[i].at && es[k].at == fs[k].at;
    RingMisses(es, SPAN, oldest, i, k);
    LiveCounted(log, j, oldest);
  }

  lemma SnapshotKept(log: seq<Sample>, oldest: int, buckets: seq<real>)
    requires IsSnapshot(log, oldest, buckets) && SamplesKept(log, oldest)
    ensures Tallies(buckets, Live(log, oldest))
  {
    forall j | 0 <= j < BUCKETS ensures buckets[j] == InBucket(Live(log, oldest), j) as real {
      KeptInView(log, oldest, j);
      RingExact(Weighted(log, j), SPAN, oldest);
      LiveCounted(log, j, oldest);
    }
  }

  lemma SnapshotLost(log: seq<Sample>, oldest: int) returns (j: nat)
    requires !SamplesKept(log, oldest)
    ensures j < BUCKETS && RingTotal(Weighted(log, j), SPAN, SLOTS, oldest) < InBucket(Live(log, oldest), j) as real
  {
    var fs := Weighted(log, 0);
    var i, k :| 0 <= i < k < |fs| && TickOf(fs, SPAN, i) >= oldest && Overwrites(fs, SPAN, i, k);
    j := BucketOf(log[i].ms);
    SnapshotMisses(log, oldest, i, k);
  }

  /** A snapshot tallies exactly the samples still inside the window, precisely when none of
      them was overwritten. */
  lemma SnapshotExactIff(log: seq<Sample>, oldest: int, buckets: seq<real>)
    requires IsSnapshot(log, oldest, buckets)
    ensures Tallies(buckets, Live(log, oldest)) <==> SamplesKept(log, oldest)
  {
    if SamplesKept(log, oldest) {
      SnapshotKept(log, oldest, buckets);
    } else {
      var j := SnapshotLost(log, oldest);
    }
  }

  lemma PercentileExact(log: seq<Sample>, oldest: int, q: real, buckets: seq<real>)
    requires SamplesKept(log, oldest) && 0.0 < q <= 1.0 && IsSnapshot(log, oldest, buckets)
    ensures var vals := Live(log, oldest); var r := QuantileOf(buckets, q);
            && (r == None <==> vals == [])
            && (r.Some? ==> IsQuantile(Tally(vals), q, r.value))
            && (forall k: nat, v ::
                 (k - 1) as real < Target(|vals| as real, q) <= k as real && IsKthSmallest(vals, k, v) ==>
                  r.Some? && Lower(BucketOf(v)) <= r.value <= Upper(BucketOf(v)))
  {
    var vals := Live(log, oldest);
    SnapshotExactIff(log, oldest, buckets);
    PrefixCounts(buckets, vals, BUCKETS);
    AllBefore(vals);
    TallyIsQuantile(buckets, vals, q);
    forall k: nat, v | (k - 1) as real < Target(|vals| as real, q) <= k as real && IsKthSmallest(vals, k, v)
      ensures QuantileOf(buckets, q).Some? && Lower(BucketOf(v)) <= QuantileOf(buckets, q).value <= Upper(BucketOf(v))
    {
      QuantileRank(buckets, vals, q, k, v);
    }
  }
}
