/** `_SpanRing`: several spans of buckets packed back to back in two flat arrays. */
module SpanRings {
  import opened SlotRing

  const LEDGER_PLAN: seq<Span> := [Span(0, 60, 1), Span(60, 60, 5), Span(120, 96, 900)]
  const LEDGER_SLOTS: nat := 216

  /** The spans are usable, lie within the arrays and do not overlap. */
  predicate PlanOk(plan: seq<Span>, slots: nat) {
    && (forall k :: 0 <= k < |plan| ==> plan[k].Ok() && plan[k].offset + plan[k].buckets <= slots)
    && (forall k, l :: 0 <= k < l < |plan| ==> plan[k].offset + plan[k].buckets <= plan[l].offset)
  }

  /** The flat arrays hold, for span sp, what its slots hold after log. */
  ghost predicate Holds(counts: seq<real>, ticks: seq<int>, sp: Span, log: seq<Event>)
    requires sp.Ok() && sp.offset + sp.buckets <= |counts| == |ticks|
  {
    forall s :: 0 <= s < sp.buckets ==>
      Slot(ticks[sp.offset + s], counts[sp.offset + s]) == SlotAfter(log, sp, s)
  }

  /** A method that only wrote outside sp's region left its slots alone. */
  lemma HoldsElsewhere(counts: seq<real>, ticks: seq<int>, counts': seq<real>, ticks': seq<int>, sp: Span,
                       log: seq<Event>, idx: nat)
    requires sp.Ok() && sp.offset + sp.buckets <= |counts| == |ticks| == |counts'| == |ticks'|
    requires idx < sp.offset || sp.offset + sp.buckets <= idx < |counts|
    requires forall i :: 0 <= i < |counts| && i != idx ==> counts'[i] == counts[i] && ticks'[i] == ticks[i]
    requires Holds(counts, ticks, sp, log)
    ensures Holds(counts', ticks', sp, log)
  {
  }

  /** One bucket write brings sp's region from log to log + [e]. */
  lemma HoldsHere(counts: seq<real>, ticks: seq<int>, counts': seq<real>, ticks': seq<int>, sp: Span,
                  log: seq<Event>, e: Event)
    requires sp.Ok() && sp.offset + sp.buckets <= |counts| == |ticks| == |counts'| == |ticks'|
    requires Holds(counts, ticks, sp, log)
    requires var t := Tick(e.at, sp);
             var idx := sp.offset + t % sp.buckets;
             && (forall i :: 0 <= i < |counts| && i != idx ==> counts'[i] == counts[i] && ticks'[i] == ticks[i])
             && ticks'[idx] == t
             && counts'[idx] == (if ticks[idx] != t then 0.0 else counts[idx]) + e.amount
    ensures Holds(counts', ticks', sp, log + [e])
  {
    assert (log + [e])[..|log|] == log;
  }

  class SpanRing {
    const plan: seq<Span>
    const counts: array<real>
    const ticks: array<int>
    /** Every event ever added. */
    ghost var log: seq<Event>

    ghost function Footprint(): set<object> {
      {this, counts, ticks}
    }

    ghost predicate Valid()
      reads this, counts, ticks
    {
      && counts.Length == ticks.Length && PlanOk(plan, counts.Length)
      && forall k :: 0 <= k < |plan| ==> Holds(counts[..], ticks[..], plan[k], log)
    }

    /** The ring is sound and holds exactly these events. */
    ghost predicate Holding(plan: seq<Span>, log: seq<Event>)
      reads this, counts, ticks
    {
      Valid() && this.plan == plan && this.log == log
    }

    constructor (plan: seq<Span> := LEDGER_PLAN, slots: nat := LEDGER_SLOTS)
      requires PlanOk(plan, slots)
      ensures Valid() && fresh(Footprint())
      ensures this.plan == plan && log == []
    {
      this.plan := plan;
      counts := new real[slots](_ => 0.0);
      ticks := new int[slots](_ => 0);
      log := [];
    }

    /** Record amount at wall-clock now, in every span. */
    method Add(now: real, amount: real := 1.0)
      requires Valid()
      modifies Footprint()
      ensures Valid() && log == old(log) + [Event(now, amount)]
    {
      ghost var e := Event(now, amount);
      for k := 0 to |plan|
        invariant log == old(log)
        invariant forall l :: 0 <= l < k ==> Holds(counts[..], ticks[..], plan[l], log + [e])
        invariant forall l :: k <= l < |plan| ==> Holds(counts[..], ticks[..], plan[l], log)
      {
        ghost var counts0, ticks0 := counts[..], ticks[..];
        var sp := plan[k];
        var tick := Tick(now, sp);
        var idx := sp.offset + tick % sp.buckets;
        if ticks[idx] != tick {
          ticks[idx] := tick;
          counts[idx] := 0.0;
        }
        counts[idx] := counts[idx] + amount;
        HoldsHere(counts0, ticks0, counts[..], ticks[..], sp, log, e);
        forall l | 0 <= l < k ensures Holds(counts[..], ticks[..], plan[l], log + [e]) {
          HoldsElsewhere(counts0, ticks0, counts[..], ticks[..], plan[l], log + [e], idx);
        }
        forall l | k < l < |plan| ensures Holds(counts[..], ticks[..], plan[l], log) {
          HoldsElsewhere(counts0, ticks0, counts[..], ticks[..], plan[l], log, idx);
        }
      }
      log := log + [e];
    }

    /** The loop shared by window and recent. */
    method Sum(index: nat, oldest: int) returns (total: real)
      requires Valid() && index < |plan|
      ensures total == RingTotal(log, plan[index], plan[index].buckets, oldest)
    {
      var sp := plan[index];
      total := 0.0;
      for i := sp.offset to sp.offset + sp.buckets
        invariant total == RingTotal(log, sp, i - sp.offset, oldest)
      {
        assert Slot(ticks[..][sp.offset + (i - sp.offset)], counts[..][sp.offset + (i - sp.offset)]) ==
            SlotAfter(log, sp, i - sp.offset);
        if ticks[i] >= oldest {
          total := total + counts[i];
        }
      }
    }

    /** Total over a span, ignoring buckets that have aged out. */
    method Window(now: real, index: nat := 0) returns (total: real)
      requires Valid() && index < |plan|
      ensures var sp, oldest := plan[index], Oldest(now, plan[index]);
              && (Kept(log, sp, oldest) ==> total == Recorded(log, sp, oldest))
              && (Positive(log) && !Kept(log, sp, oldest) ==> total < Recorded(log, sp, oldest))
              && total == RingTotal(log, sp, sp.buckets, oldest)
    {
      var oldest := Oldest(now, plan[index]);
      total := Sum(index, oldest);
      if Kept(log, plan[index], oldest) {
        RingExact(log, plan[index], oldest);
      } else if Positive(log) {
        RingExactIff(log, plan[index], oldest);
      }
    }

    /** Total over the last seconds, rounded down to whole buckets but at least one, and at
        most the span. */
    method Recent(now: real, seconds: nat, index: nat := 0) returns (total: real)
      requires Valid() && index < |plan|
      ensures var sp := plan[index];
              var oldest := Tick(now, sp) - RecentBuckets(seconds, sp) + 1;
              && (Kept(log, sp, oldest) ==> total == Recorded(log, sp, oldest))
              && (Positive(log) && !Kept(log, sp, oldest) ==> total < Recorded(log, sp, oldest))
    {
      var sp := plan[index];
      var oldest := Tick(now, sp) - RecentBuckets(seconds, sp) + 1;
      total := Sum(index, oldest);
      if Kept(log, sp, oldest) {
        RingExact(log, sp, oldest);
      } else if Positive(log) {
        RingExactIff(log, sp, oldest);
      }
    }

    /** Per-bucket values, oldest to newest. */
    method Series(now: real, index: nat := 0) returns (out: seq<real>)
      requires Valid() && index < |plan|
      ensures |out| == plan[index].buckets
      ensures forall k :: 0 <= k < |out| ==> out[k] == BucketAt(log, plan[index], Oldest(now, plan[index]) + k)
      ensures Kept(log, plan[index], Oldest(now, plan[index])) ==>
                && (forall k :: 0 <= k < |out| ==> out[k] == RecordedAt(log, plan[index], Oldest(now, plan[index]) + k))
                && (NoneLater(log, plan[index], now) ==>
                  SumOf(out) == Recorded(log, plan[index], Oldest(now, plan[index])))
      ensures NoneLater(log, plan[index], now) ==>
                SumOf(out) == RingTotal(log, plan[index], plan[index].buckets, Oldest(now, plan[index]))
    {
      var sp := plan[index];
      var tick := Tick(now, sp);
      out := [];
      var age := sp.buckets - 1;
      while age >= 0
        invariant -1 <= age < sp.buckets && |out| == sp.buckets - 1 - age
        invariant forall k :: 0 <= k < |out| ==> out[k] == BucketAt(log, sp, Oldest(now, sp) + k)
      {
        var wanted := tick - age;
        var idx := sp.offset + wanted % sp.buckets;
        assert Slot(ticks[..][idx], counts[..][idx]) == SlotAfter(log, sp, wanted % sp.buckets);
        out := out + [if ticks[idx] == wanted then counts[idx] else 0.0];
        age := age - 1;
      }
      if Kept(log, sp, Oldest(now, sp)) {
        SeriesExact(log, sp, now, out);
      }
      if NoneLater(log, sp, now) {
        BucketsMakeWindow(log, sp, now, out);
      }
    }
  }

  function RecentBuckets(seconds: nat, sp: Span): (n: nat)
    requires sp.Ok()
    ensures 1 <= n <= sp.buckets
    ensures sp.width <= seconds <= sp.buckets * sp.width ==> seconds - sp.width < n * sp.width <= seconds
  {
    var n := if seconds / sp.width > 1 then seconds / sp.width else 1;
    if n < sp.buckets then n else sp.buckets
  }

  lemma {:induction false} SumOfBuckets(log: seq<Event>, sp: Span, from: int, out: seq<real>)
    requires sp.Ok() && forall k :: 0 <= k < |out| ==> out[k] == RecordedAt(log, sp, from + k)
    ensures SumOf(out) == RecordedOver(log, sp, from, |out|)
  {
    if out != [] {
      SumOfBuckets(log, sp, from, out[..|out| - 1]);
    }
  }

  lemma SeriesExact(log: seq<Event>, sp: Span, now: real, out: seq<real>)
    requires sp.Ok() && Kept(log, sp, Oldest(now, sp)) && |out| == sp.buckets
    requires forall k :: 0 <= k < |out| ==> out[k] == BucketAt(log, sp, Oldest(now, sp) + k)
    ensures forall k :: 0 <= k < |out| ==> out[k] == RecordedAt(log, sp, Oldest(now, sp) + k)
    ensures NoneLater(log, sp, now) ==> SumOf(out) == Recorded(log, sp, Oldest(now, sp))
  {
    var from := Oldest(now, sp);
    forall k | 0 <= k < |out| ensures out[k] == RecordedAt(log, sp, from + k) {
      assert KeptAt(log, sp, from + k) by {
        forall i, j | 0 <= i < j < |log| && TickOf(log, sp, i) == from + k ensures !Overwrites(log, sp, i, j) {
        }
      }
      BucketExact(log, sp, from + k);
    }
    SumOfBuckets(log, sp, from, out);
    if NoneLater(log, sp, now) {
      OverCovers(log, sp, from, sp.buckets);
    }
  }

  /** The windows that the ledger shows nest when its larger rings have lost nothing: what the
      last minute shows is part of what the last five minutes show, and so on. */
  lemma SpansNest(log: seq<Event>, now: real)
    requires NonNegative(log)
    requires Kept(log, LEDGER_PLAN[1], Oldest(now, LEDGER_PLAN[1]))
    requires Kept(log, LEDGER_PLAN[2], Oldest(now, LEDGER_PLAN[2]))
    ensures RingLe(log, LEDGER_PLAN[0], LEDGER_PLAN[1], now) && RingLe(log, LEDGER_PLAN[1], LEDGER_PLAN[2], now)
  {
    KeptCovers(log, LEDGER_PLAN[0], LEDGER_PLAN[1], now);
    KeptCovers(log, LEDGER_PLAN[1], LEDGER_PLAN[2], now);
    RingsNest(log, LEDGER_PLAN[0], LEDGER_PLAN[1], now);
    RingsNest(log, LEDGER_PLAN[1], LEDGER_PLAN[2], now);
  }

  /** ... in particular when the clock never stepped back by five minutes or more. */
  lemma SmallStepsNest(log: seq<Event>, now: real)
    requires NonNegative(log)
    requires SmallSteps(log, LEDGER_PLAN[1]) && NoneLater(log, LEDGER_PLAN[1], now)
    requires SmallSteps(log, LEDGER_PLAN[2]) && NoneLater(log, LEDGER_PLAN[2], now)
    ensures RingLe(log, LEDGER_PLAN[0], LEDGER_PLAN[1], now) && RingLe(log, LEDGER_PLAN[1], LEDGER_PLAN[2], now)
  {
    SmallStepsKeep(log, LEDGER_PLAN[1], now);
    SmallStepsKeep(log, LEDGER_PLAN[2], now);
    SpansNest(log, now);
  }

  /** ... or never ran backwards at all. */
  lemma NondecreasingNest(log: seq<Event>, now: real)
    requires NonNegative(log) && Nondecreasing(log) && forall i :: 0 <= i < |log| ==> log[i].at <= now
    ensures RingLe(log, LEDGER_PLAN[0], LEDGER_PLAN[1], now) && RingLe(log, LEDGER_PLAN[1], LEDGER_PLAN[2], now)
  {
    NondecreasingKeeps(log, LEDGER_PLAN[1], now);
    NondecreasingKeeps(log, LEDGER_PLAN[2], now);
    SpansNest(log, now);
  }

  /** After a step back by five minutes they need not: an event at second 301, one at second 0,
      read at second 301. The two share a slot of the middle span only. */
  lemma BigStepUnnests()
    ensures !RingLe([Event(301.0, 1.0), Event(0.0, 1.0)], LEDGER_PLAN[0], LEDGER_PLAN[1], 301.0)
  {
    var log := [Event(301.0, 1.0), Event(0.0, 1.0)];
    var p, q := LEDGER_PLAN[0], LEDGER_PLAN[1];
    assert TickOf(log, p, 0) == 301 && TickOf(log, p, 1) == 0 && TickOf(log, q, 0) == 60 && TickOf(log, q, 1) == 0;
    assert Overwrites(log, q, 0, 1) && !Survives(log, q, 0);
    assert !Overwrites(log, p, 0, 1) && Survives(log, p, 0);
    RingShows(log, p, Oldest(301.0, p));
    RingShows(log, q, Oldest(301.0, q));
    assert 0 in Shown(log, p, Oldest(301.0, p));
    TotalNone(log, Shown(log, q, Oldest(301.0, q)), 2);
    TotalNone(log, {}, 2);
    TotalLess(log, {}, Shown(log, p, Oldest(301.0, p)), 2, 0);
  }
}
