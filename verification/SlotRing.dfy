/** What one span of a ring records, as a function of the log of every event ever added. */
module SlotRing {

  /** A span of a ring: buckets of width seconds each, starting at offset in the flat arrays. */
  datatype Span = Span(offset: nat, buckets: nat, width: nat) {
    predicate Ok() {
      buckets > 0 && width > 0
    }
  }

  datatype Event = Event(at: real, amount: real)

  datatype Slot = Slot(tick: int, count: real)

  function Tick(at: real, sp: Span): int
    requires sp.Ok()
  {
    (at / sp.width as real).Floor
  }

  function Oldest(now: real, sp: Span): int
    requires sp.Ok()
  {
    Tick(now, sp) - sp.buckets + 1
  }

  /** Slot s of the span after the events of log: it restarts from zero whenever an event
      arrives whose tick is not the one it holds. */
  function SlotAfter(log: seq<Event>, sp: Span, s: nat): Slot
    requires sp.Ok()
  {
    if log == [] then Slot(0, 0.0)
    else
      var prev := SlotAfter(log[..|log| - 1], sp, s);
      var e := log[|log| - 1];
      var t := Tick(e.at, sp);
      if t % sp.buckets != s then prev
      else if prev.tick != t then Slot(t, e.amount)
      else Slot(t, prev.count + e.amount)
  }

  function Share(slot: Slot, oldest: int): real {
    if slot.tick >= oldest then slot.count else 0.0
  }

  /** What the first k slots hold for the window that starts at tick oldest. */
  function RingTotal(log: seq<Event>, sp: Span, k: nat, oldest: int): real
    requires sp.Ok()
  {
    if k == 0 then 0.0 else RingTotal(log, sp, k - 1, oldest) + Share(SlotAfter(log, sp, k - 1), oldest)
  }

  // ----- the reference: keep every event and sum the recent ones -----

  function Recorded(log: seq<Event>, sp: Span, oldest: int): real
    requires sp.Ok()
  {
    if log == [] then 0.0
    else
      var e := log[|log| - 1];
      Recorded(log[..|log| - 1], sp, oldest) + if Tick(e.at, sp) >= oldest then e.amount else 0.0
  }

  lemma RecordedAppend(log: seq<Event>, e: Event, sp: Span, oldest: int)
    requires sp.Ok()
    ensures Recorded(log + [e], sp, oldest) ==
              Recorded(log, sp, oldest) + if Tick(e.at, sp) >= oldest then e.amount else 0.0
  {
    assert (log + [e])[..|log|] == log;
  }

  function RecordedAt(log: seq<Event>, sp: Span, tick: int): real
    requires sp.Ok()
  {
    if log == [] then 0.0
    else
      var e := log[|log| - 1];
      RecordedAt(log[..|log| - 1], sp, tick) + if Tick(e.at, sp) == tick then e.amount else 0.0
  }

  function TickOf(log: seq<Event>, sp: Span, i: nat): int
    requires sp.Ok() && i < |log|
  {
    Tick(log[i].at, sp)
  }

  /** Event j overwrites the slot that holds event i. */
  predicate Overwrites(log: seq<Event>, sp: Span, i: nat, j: nat)
    requires sp.Ok() && i < j < |log|
  {
    TickOf(log, sp, i) % sp.buckets == TickOf(log, sp, j) % sp.buckets && TickOf(log, sp, i) != TickOf(log, sp, j)
  }

  ghost predicate Kept(log: seq<Event>, sp: Span, oldest: int)
    requires sp.Ok()
  {
    forall i, j :: 0 <= i < j < |log| && TickOf(log, sp, i) >= oldest ==> !Overwrites(log, sp, i, j)
  }

  ghost predicate Positive(log: seq<Event>) {
    forall i :: 0 <= i < |log| ==> log[i].amount > 0.0
  }

  ghost predicate NonNegative(log: seq<Event>) {
    forall i :: 0 <= i < |log| ==> log[i].amount >= 0.0
  }

  /** No later event took its slot. */
  ghost predicate Survives(log: seq<Event>, sp: Span, i: nat)
    requires sp.Ok() && i < |log|
  {
    forall j :: i < j < |log| ==> !Overwrites(log, sp, i, j)
  }

  // ----- sums over some of the events -----

  /** The amounts of those of the first n events that are in kept. */
  ghost function Total(log: seq<Event>, kept: set<int>, n: nat): real
    requires n <= |log|
  {
    if n == 0 then 0.0 else Total(log, kept, n - 1) + if n - 1 in kept then log[n - 1].amount else 0.0
  }

  lemma {:induction false} TotalSame(log: seq<Event>, a: set<int>, log': seq<Event>, b: set<int>, n: nat)
    requires n <= |log| && n <= |log'|
    requires forall i :: 0 <= i < n ==> (i in a <==> i in b)
    requires forall i :: 0 <= i < n && i in a ==> log[i].amount == log'[i].amount
    ensures Total(log, a, n) == Total(log', b, n)
  {
    if n > 0 { TotalSame(log, a, log', b, n - 1); }
  }

  lemma {:induction false} TotalNone(log: seq<Event>, a: set<int>, n: nat)
    requires n <= |log| && forall i :: 0 <= i < n ==> i !in a
    ensures Total(log, a, n) == 0.0
  {
    if n > 0 { TotalNone(log, a, n - 1); }
  }

  lemma {:induction false} TotalUnion(log: seq<Event>, a: set<int>, b: set<int>, n: nat)
    requires n <= |log| && a !! b
    ensures Total(log, a + b, n) == Total(log, a, n) + Total(log, b, n)
  {
    if n > 0 { TotalUnion(log, a, b, n - 1); }
  }

  lemma {:induction false} TotalLe(log: seq<Event>, a: set<int>, b: set<int>, n: nat)
    requires n <= |log| && a <= b && NonNegative(log)
    ensures Total(log, a, n) <= Total(log, b, n)
  {
    if n > 0 { TotalLe(log, a, b, n - 1); }
  }

  lemma {:induction false} TotalLess(log: seq<Event>, a: set<int>, b: set<int>, n: nat, k: nat)
    requires k < n <= |log| && a <= b && NonNegative(log)
    requires k in b && k !in a && log[k].amount > 0.0
    ensures Total(log, a, n) < Total(log, b, n)
  {
    if k < n - 1 {
      TotalLess(log, a, b, n - 1, k);
    } else {
      TotalLe(log, a, b, n - 1);
    }
  }

  // ----- one slot -----

  /** The events that a slot holds. */
  ghost function HeldIn(log: seq<Event>, sp: Span, s: nat): set<int>
    requires sp.Ok()
  {
    set i | 0 <= i < |log| && TickOf(log, sp, i) % sp.buckets == s && Survives(log, sp, i)
  }

  lemma TickPrefix(log: seq<Event>, sp: Span, i: nat)
    requires sp.Ok() && i < |log| - 1
    ensures TickOf(log[..|log| - 1], sp, i) == TickOf(log, sp, i)
  {
  }

  /** The last event overwrites what it overwrites, and nothing else changes. */
  lemma SurvivesNext(log: seq<Event>, sp: Span, i: nat)
    requires sp.Ok() && i < |log| - 1
    ensures Survives(log, sp, i) <==> Survives(log[..|log| - 1], sp, i) && !Overwrites(log, sp, i, |log| - 1)
  {
    var l := log[..|log| - 1];
    forall j | i < j < |l| ensures Overwrites(l, sp, i, j) <==> Overwrites(log, sp, i, j) {
      TickPrefix(log, sp, i);
      TickPrefix(log, sp, j);
    }
  }

  lemma HeldNext(log: seq<Event>, sp: Span, s: nat, i: nat)
    requires sp.Ok() && i < |log| - 1
    ensures i in HeldIn(log, sp, s) <==> i in HeldIn(log[..|log| - 1], sp, s) && !Overwrites(log, sp, i, |log| - 1)
  {
    SurvivesNext(log, sp, i);
    TickPrefix(log, sp, i);
  }

  /** A slot holds the amounts of the events that survive in it, and their common tick. */
  lemma {:induction false} SlotHolds(log: seq<Event>, sp: Span, s: nat)
    requires sp.Ok()
    ensures SlotAfter(log, sp, s).count == Total(log, HeldIn(log, sp, s), |log|)
    ensures forall i :: i in HeldIn(log, sp, s) ==> TickOf(log, sp, i) == SlotAfter(log, sp, s).tick
  {
    if log != [] {
      var n := |log| - 1;
      SlotHolds(log[..n], sp, s);
      forall i | 0 <= i < n
        ensures i in HeldIn(log, sp, s) <==> i in HeldIn(log[..n], sp, s) && !Overwrites(log, sp, i, n)
        ensures TickOf(log[..n], sp, i) == TickOf(log, sp, i)
      {
        HeldNext(log, sp, s, i);
        TickPrefix(log, sp, i);
      }
      if TickOf(log, sp, n) % sp.buckets == s && SlotAfter(log[..n], sp, s).tick != TickOf(log, sp, n) {
        assert forall i :: 0 <= i < n ==> i !in HeldIn(log, sp, s);
        TotalNone(log, HeldIn(log, sp, s), n);
      } else {
        TotalSame(log, HeldIn(log, sp, s), log[..n], HeldIn(log[..n], sp, s), n);
      }
      assert Survives(log, sp, n);
    }
  }

  // ----- all slots -----

  /** The events that the window starting at oldest should count. */
  ghost function InWindow(log: seq<Event>, sp: Span, oldest: int): set<int>
    requires sp.Ok()
  {
    set i | 0 <= i < |log| && TickOf(log, sp, i) >= oldest
  }

  /** Those of them that are still there. */
  ghost function Shown(log: seq<Event>, sp: Span, oldest: int): set<int>
    requires sp.Ok()
  {
    set i | 0 <= i < |log| && TickOf(log, sp, i) >= oldest && Survives(log, sp, i)
  }

  ghost function ShownUpTo(log: seq<Event>, sp: Span, k: nat, oldest: int): set<int>
    requires sp.Ok()
  {
    set i | i in Shown(log, sp, oldest) && TickOf(log, sp, i) % sp.buckets < k
  }

  ghost function ShownIn(log: seq<Event>, sp: Span, s: nat, oldest: int): set<int>
    requires sp.Ok()
  {
    set i | i in Shown(log, sp, oldest) && TickOf(log, sp, i) % sp.buckets == s
  }

  lemma ShareShows(log: seq<Event>, sp: Span, s: nat, oldest: int)
    requires sp.Ok()
    ensures Share(SlotAfter(log, sp, s), oldest) == Total(log, ShownIn(log, sp, s, oldest), |log|)
  {
    SlotHolds(log, sp, s);
    if SlotAfter(log, sp, s).tick >= oldest {
      assert ShownIn(log, sp, s, oldest) == HeldIn(log, sp, s);
    } else {
      assert forall i :: i in ShownIn(log, sp, s, oldest) ==> i in HeldIn(log, sp, s);
      TotalNone(log, ShownIn(log, sp, s, oldest), |log|);
    }
  }

  lemma {:induction false} TotalShows(log: seq<Event>, sp: Span, k: nat, oldest: int)
    requires sp.Ok()
    ensures RingTotal(log, sp, k, oldest) == Total(log, ShownUpTo(log, sp, k, oldest), |log|)
  {
    if k == 0 {
      TotalNone(log, ShownUpTo(log, sp, k, oldest), |log|);
    } else {
      TotalShows(log, sp, k - 1, oldest);
      ShareShows(log, sp, k - 1, oldest);
      TotalUnion(log, ShownUpTo(log, sp, k - 1, oldest), ShownIn(log, sp, k - 1, oldest), |log|);
      assert ShownUpTo(log, sp, k, oldest) == ShownUpTo(log, sp, k - 1, oldest) + ShownIn(log, sp, k - 1, oldest);
    }
  }

  /** Whatever the clock did, a ring shows exactly the events of the window that no later event
      has overwritten. */
  lemma RingShows(log: seq<Event>, sp: Span, oldest: int)
    requires sp.Ok()
    ensures RingTotal(log, sp, sp.buckets, oldest) == Total(log, Shown(log, sp, oldest), |log|)
  {
    TotalShows(log, sp, sp.buckets, oldest);
    assert ShownUpTo(log, sp, sp.buckets, oldest) == Shown(log, sp, oldest);
  }

  lemma {:induction false} RecordedIs(log: seq<Event>, sp: Span, oldest: int)
    requires sp.Ok()
    ensures Recorded(log, sp, oldest) == Total(log, InWindow(log, sp, oldest), |log|)
  {
    if log != [] {
      var n := |log| - 1;
      RecordedIs(log[..n], sp, oldest);
      forall i | 0 <= i < n ensures TickOf(log[..n], sp, i) == TickOf(log, sp, i) { TickPrefix(log, sp, i); }
      TotalSame(log, InWindow(log, sp, oldest), log[..n], InWindow(log[..n], sp, oldest), n);
    }
  }

  /** The ring is right whenever no event it should still count has been overwritten. */
  lemma RingExact(log: seq<Event>, sp: Span, oldest: int)
    requires sp.Ok() && Kept(log, sp, oldest)
    ensures RingTotal(log, sp, sp.buckets, oldest) == Recorded(log, sp, oldest)
  {
    RingShows(log, sp, oldest);
    RecordedIs(log, sp, oldest);
    assert Shown(log, sp, oldest) == InWindow(log, sp, oldest);
  }

  /** An overwritten event that the window should count is missing from it. */
  lemma RingMisses(log: seq<Event>, sp: Span, oldest: int, i: nat, j: nat)
    requires sp.Ok() && NonNegative(log) && i < j < |log|
    requires TickOf(log, sp, i) >= oldest && Overwrites(log, sp, i, j) && log[i].amount > 0.0
    ensures RingTotal(log, sp, sp.buckets, oldest) < Recorded(log, sp, oldest)
  {
    RingShows(log, sp, oldest);
    RecordedIs(log, sp, oldest);
    assert !Survives(log, sp, i);
    TotalLess(log, Shown(log, sp, oldest), InWindow(log, sp, oldest), |log|, i);
  }

  /** For positive amounts, which are all the ledger adds, that condition is exact. No
      assumption is made about the clock. */
  lemma RingExactIff(log: seq<Event>, sp: Span, oldest: int)
    requires sp.Ok() && Positive(log)
    ensures RingTotal(log, sp, sp.buckets, oldest) == Recorded(log, sp, oldest) <==> Kept(log, sp, oldest)
    ensures RingTotal(log, sp, sp.buckets, oldest) <= Recorded(log, sp, oldest)
  {
    RingShows(log, sp, oldest);
    RecordedIs(log, sp, oldest);
    TotalLe(log, Shown(log, sp, oldest), InWindow(log, sp, oldest), |log|);
    if Kept(log, sp, oldest) {
      RingExact(log, sp, oldest);
    } else {
      var i, j :| 0 <= i < j < |log| && TickOf(log, sp, i) >= oldest && Overwrites(log, sp, i, j);
      RingMisses(log, sp, oldest, i, j);
    }
  }

  // ----- when is everything kept? -----

  lemma MulBound(n: nat, k: int)
    ensures k >= 1 ==> n * k >= n
    ensures k <= 0 ==> n * k <= 0
  {
  }

  lemma CongruentApart(a: int, b: int, n: nat)
    requires n > 0 && a % n == b % n && a < b
    ensures b - a >= n
  {
    MulBound(n, b / n - a / n);
    assert n * (b / n - a / n) == n * (b / n) - n * (a / n);
  }

  /** The clock never stepped back by a whole span or more: in ticks, every event lies less
      than buckets behind each earlier one. */
  ghost predicate SmallSteps(log: seq<Event>, sp: Span)
    requires sp.Ok()
  {
    forall i, j :: 0 <= i < j < |log| ==> TickOf(log, sp, j) > TickOf(log, sp, i) - sp.buckets
  }

  /** Nothing in the log lies in a later bucket than now. */
  ghost predicate NoneLater(log: seq<Event>, sp: Span, now: real)
    requires sp.Ok()
  {
    forall i :: 0 <= i < |log| ==> TickOf(log, sp, i) <= Tick(now, sp)
  }

  ghost predicate Nondecreasing(log: seq<Event>) {
    forall i, j :: 0 <= i < j < |log| ==> log[i].at <= log[j].at
  }

  /** Backward steps of the clock shorter than the span lose nothing. */
  lemma SmallStepsKeep(log: seq<Event>, sp: Span, now: real)
    requires sp.Ok() && SmallSteps(log, sp) && NoneLater(log, sp, now)
    ensures Kept(log, sp, Oldest(now, sp))
  {
    forall i, j | 0 <= i < j < |log| && TickOf(log, sp, i) >= Oldest(now, sp)
      ensures !Overwrites(log, sp, i, j)
    {
      if Overwrites(log, sp, i, j) {
        if TickOf(log, sp, i) < TickOf(log, sp, j) {
          CongruentApart(TickOf(log, sp, i), TickOf(log, sp, j), sp.buckets);
        } else {
          CongruentApart(TickOf(log, sp, j), TickOf(log, sp, i), sp.buckets);
        }
      }
    }
  }

  lemma TickMonotone(a: real, b: real, sp: Span)
    requires sp.Ok() && a <= b
    ensures Tick(a, sp) <= Tick(b, sp)
  {
    var w := sp.width as real;
    assert a / w <= b / w;
  }

  /** A clock that never runs backwards loses nothing. */
  lemma NondecreasingKeeps(log: seq<Event>, sp: Span, now: real)
    requires sp.Ok() && Nondecreasing(log)
    requires forall i :: 0 <= i < |log| ==> log[i].at <= now
    ensures SmallSteps(log, sp) && NoneLater(log, sp, now)
    ensures Kept(log, sp, Oldest(now, sp))
  {
    forall i, j | 0 <= i < j < |log| ensures TickOf(log, sp, j) > TickOf(log, sp, i) - sp.buckets {
      TickMonotone(log[i].at, log[j].at, sp);
    }
    forall i | 0 <= i < |log| ensures TickOf(log, sp, i) <= Tick(now, sp) {
      TickMonotone(log[i].at, now, sp);
    }
    SmallStepsKeep(log, sp, now);
  }

  /** A step back by a whole span does lose an event: one at second 120, the next at
      second 60, both within the last minute of a reading taken at second 120. */
  lemma BigStepLoses()
    ensures var log := [Event(120.0, 1.0), Event(60.0, 1.0)];
            var sp := Span(0, 60, 1);
            RingTotal(log, sp, sp.buckets, Oldest(120.0, sp)) < Recorded(log, sp, Oldest(120.0, sp))
  {
    var log := [Event(120.0, 1.0), Event(60.0, 1.0)];
    var sp := Span(0, 60, 1);
    assert TickOf(log, sp, 0) == 120 && TickOf(log, sp, 1) == 60;
    assert Overwrites(log, sp, 0, 1);
    RingExactIff(log, sp, Oldest(120.0, sp));
  }

  /** A reading before a logged event can miss one too, small as the clock's steps are: events
      at seconds 100 and 160 share a slot, and the later one hides the other at second 120. */
  lemma EarlyReadLoses()
    ensures var log := [Event(100.0, 1.0), Event(160.0, 1.0)];
            var sp := Span(0, 60, 1);
            && SmallSteps(log, sp) && !NoneLater(log, sp, 120.0)
            && RingTotal(log, sp, sp.buckets, Oldest(120.0, sp)) < Recorded(log, sp, Oldest(120.0, sp))
  {
    var log := [Event(100.0, 1.0), Event(160.0, 1.0)];
    var sp := Span(0, 60, 1);
    assert TickOf(log, sp, 0) == 100 && TickOf(log, sp, 1) == 160;
    assert Overwrites(log, sp, 0, 1);
    RingExactIff(log, sp, Oldest(120.0, sp));
  }

  // ----- single buckets -----

  ghost predicate KeptAt(log: seq<Event>, sp: Span, tick: int)
    requires sp.Ok()
  {
    forall i, j :: 0 <= i < j < |log| && TickOf(log, sp, i) == tick ==> !Overwrites(log, sp, i, j)
  }

  /** What a reader of the bucket for the given tick sees. */
  function BucketAt(log: seq<Event>, sp: Span, tick: int): real
    requires sp.Ok()
  {
    var slot := SlotAfter(log, sp, tick % sp.buckets);
    if slot.tick == tick then slot.count else 0.0
  }

  /** The surviving events of k buckets, from the given tick on. */
  ghost function ShownOver(log: seq<Event>, sp: Span, first: int, k: nat): set<int>
    requires sp.Ok()
  {
    set i | 0 <= i < |log| && first <= TickOf(log, sp, i) < first + k && Survives(log, sp, i)
  }

  /** Whatever the clock did, a bucket shows the events of its tick that survive. */
  lemma BucketShows(log: seq<Event>, sp: Span, tick: int)
    requires sp.Ok()
    ensures BucketAt(log, sp, tick) == Total(log, ShownOver(log, sp, tick, 1), |log|)
  {
    var s := tick % sp.buckets;
    SlotHolds(log, sp, s);
    assert forall i :: i in ShownOver(log, sp, tick, 1) ==> i in HeldIn(log, sp, s);
    if SlotAfter(log, sp, s).tick == tick {
      assert ShownOver(log, sp, tick, 1) == HeldIn(log, sp, s);
    } else {
      TotalNone(log, ShownOver(log, sp, tick, 1), |log|);
    }
  }

  ghost function At(log: seq<Event>, sp: Span, tick: int): set<int>
    requires sp.Ok()
  {
    set i | 0 <= i < |log| && TickOf(log, sp, i) == tick
  }

  lemma {:induction false} RecordedAtIs(log: seq<Event>, sp: Span, tick: int)
    requires sp.Ok()
    ensures RecordedAt(log, sp, tick) == Total(log, At(log, sp, tick), |log|)
  {
    if log != [] {
      var n := |log| - 1;
      RecordedAtIs(log[..n], sp, tick);
      forall i | 0 <= i < n ensures TickOf(log[..n], sp, i) == TickOf(log, sp, i) { TickPrefix(log, sp, i); }
      TotalSame(log, At(log, sp, tick), log[..n], At(log[..n], sp, tick), n);
    }
  }

  lemma BucketExact(log: seq<Event>, sp: Span, tick: int)
    requires sp.Ok() && KeptAt(log, sp, tick)
    ensures BucketAt(log, sp, tick) == RecordedAt(log, sp, tick)
  {
    BucketShows(log, sp, tick);
    RecordedAtIs(log, sp, tick);
    assert ShownOver(log, sp, tick, 1) == At(log, sp, tick);
  }

  function SumOf(out: seq<real>): real {
    if out == [] then 0.0 else SumOf(out[..|out| - 1]) + out[|out| - 1]
  }

  lemma {:induction false} BucketsShow(log: seq<Event>, sp: Span, first: int, out: seq<real>)
    requires sp.Ok() && forall k :: 0 <= k < |out| ==> out[k] == BucketAt(log, sp, first + k)
    ensures SumOf(out) == Total(log, ShownOver(log, sp, first, |out|), |log|)
  {
    if out == [] {
      TotalNone(log, ShownOver(log, sp, first, 0), |log|);
    } else {
      var k := |out| - 1;
      BucketsShow(log, sp, first, out[..k]);
      BucketShows(log, sp, first + k);
      var a, b := ShownOver(log, sp, first, k), ShownOver(log, sp, first + k, 1);
      TotalUnion(log, a, b, |log|);
      assert ShownOver(log, sp, first, k + 1) == a + b;
    }
  }

  /** The buckets of a window add up to what the ring shows for it, overwritten or not, when
      nothing lies after it. */
  lemma BucketsMakeWindow(log: seq<Event>, sp: Span, now: real, out: seq<real>)
    requires sp.Ok() && NoneLater(log, sp, now) && |out| == sp.buckets
    requires forall k :: 0 <= k < |out| ==> out[k] == BucketAt(log, sp, Oldest(now, sp) + k)
    ensures SumOf(out) == RingTotal(log, sp, sp.buckets, Oldest(now, sp))
  {
    BucketsShow(log, sp, Oldest(now, sp), out);
    RingShows(log, sp, Oldest(now, sp));
    assert ShownOver(log, sp, Oldest(now, sp), sp.buckets) == Shown(log, sp, Oldest(now, sp));
  }

  /** What was recorded in the k buckets from the given tick on. */
  function RecordedOver(log: seq<Event>, sp: Span, from: int, k: nat): real
    requires sp.Ok()
  {
    if k == 0 then 0.0 else RecordedOver(log, sp, from, k - 1) + RecordedAt(log, sp, from + k - 1)
  }

  lemma {:induction false} OverEmpty(sp: Span, from: int, k: nat)
    requires sp.Ok()
    ensures RecordedOver([], sp, from, k) == 0.0
  {
    if k > 0 { OverEmpty(sp, from, k - 1); }
  }

  lemma {:induction false} OverStep(log: seq<Event>, sp: Span, from: int, k: nat)
    requires sp.Ok() && log != []
    ensures var e := log[|log| - 1];
            RecordedOver(log, sp, from, k) == RecordedOver(log[..|log| - 1], sp, from, k)
              + if from <= Tick(e.at, sp) < from + k then e.amount else 0.0
  {
    if k > 0 { OverStep(log, sp, from, k - 1); }
  }

  /** The buckets of a window add up to the window when nothing lies after it. */
  lemma {:induction false} OverCovers(log: seq<Event>, sp: Span, from: int, k: nat)
    requires sp.Ok()
    requires forall i :: 0 <= i < |log| ==> TickOf(log, sp, i) < from + k
    ensures RecordedOver(log, sp, from, k) == Recorded(log, sp, from)
  {
    if log == [] {
      OverEmpty(sp, from, k);
    } else {
      var l := log[..|log| - 1];
      assert forall i :: 0 <= i < |l| ==> TickOf(l, sp, i) == TickOf(log, sp, i);
      assert TickOf(log, sp, |log| - 1) == Tick(log[|log| - 1].at, sp);
      OverCovers(l, sp, from, k);
      OverStep(log, sp, from, k);
    }
  }

  // ----- what a window means in seconds -----

  lemma TickShift(x: real, sp: Span, k: int)
    requires sp.Ok()
    ensures Tick(x - (k * sp.width) as real, sp) == Tick(x, sp) - k
  {
    var w := sp.width as real;
    assert (k * sp.width) as real == k as real * w;
    assert (x - k as real * w) / w == x / w - k as real;
  }

  /** A span's window counts everything newer than one bucket short of the span, and
      nothing as old as the span. */
  lemma WindowInSeconds(at: real, now: real, sp: Span)
    requires sp.Ok()
    ensures at >= now - ((sp.buckets - 1) * sp.width) as real ==> Tick(at, sp) >= Oldest(now, sp)
    ensures at <= now - (sp.buckets * sp.width) as real ==> Tick(at, sp) < Oldest(now, sp)
  {
    TickShift(now, sp, sp.buckets - 1);
    TickShift(now, sp, sp.buckets);
    if at >= now - ((sp.buckets - 1) * sp.width) as real {
      TickMonotone(now - ((sp.buckets - 1) * sp.width) as real, at, sp);
    }
    if at <= now - (sp.buckets * sp.width) as real {
      TickMonotone(at, now - (sp.buckets * sp.width) as real, sp);
    }
  }

  // ----- nested spans -----

  /** sp2 reaches at least one of its buckets further back than sp1. */
  predicate Reaches(sp1: Span, sp2: Span) {
    sp1.Ok() && sp2.Ok() && sp1.buckets * sp1.width <= (sp2.buckets - 1) * sp2.width
  }

  lemma WindowsNest(log: seq<Event>, sp1: Span, sp2: Span, now: real)
    requires Reaches(sp1, sp2)
    ensures InWindow(log, sp1, Oldest(now, sp1)) <= InWindow(log, sp2, Oldest(now, sp2))
  {
    forall i | i in InWindow(log, sp1, Oldest(now, sp1)) ensures i in InWindow(log, sp2, Oldest(now, sp2)) {
      WindowInSeconds(log[i].at, now, sp1);
      WindowInSeconds(log[i].at, now, sp2);
    }
  }

  /** A span that reaches further back records at least as much. */
  lemma Nested(log: seq<Event>, sp1: Span, sp2: Span, now: real)
    requires Reaches(sp1, sp2) && NonNegative(log)
    ensures Recorded(log, sp1, Oldest(now, sp1)) <= Recorded(log, sp2, Oldest(now, sp2))
  {
    WindowsNest(log, sp1, sp2, now);
    RecordedIs(log, sp1, Oldest(now, sp1));
    RecordedIs(log, sp2, Oldest(now, sp2));
    TotalLe(log, InWindow(log, sp1, Oldest(now, sp1)), InWindow(log, sp2, Oldest(now, sp2)), |log|);
  }

  /** What sp1 shows has not been overwritten in sp2: a matter of the times alone. */
  ghost predicate Covered(log: seq<Event>, sp1: Span, sp2: Span, now: real)
    requires sp1.Ok() && sp2.Ok()
  {
    forall i :: i in Shown(log, sp1, Oldest(now, sp1)) ==> Survives(log, sp2, i)
  }

  ghost predicate SameTimes(log: seq<Event>, log': seq<Event>) {
    |log| == |log'| && forall i :: 0 <= i < |log| ==> log[i].at == log'[i].at
  }

  lemma SameSurvivors(log: seq<Event>, log': seq<Event>, sp: Span)
    requires sp.Ok() && SameTimes(log, log')
    ensures forall i :: 0 <= i < |log| ==> TickOf(log, sp, i) == TickOf(log', sp, i)
    ensures forall i :: 0 <= i < |log| ==> (Survives(log, sp, i) <==> Survives(log', sp, i))
  {
    forall i, j | 0 <= i < j < |log| ensures Overwrites(log, sp, i, j) <==> Overwrites(log', sp, i, j) {
      assert TickOf(log, sp, i) == TickOf(log', sp, i) && TickOf(log, sp, j) == TickOf(log', sp, j);
    }
  }

  /** The times alone decide what is kept. */
  lemma KeptByTimes(log: seq<Event>, log': seq<Event>, sp: Span, oldest: int)
    requires sp.Ok() && SameTimes(log, log')
    ensures Kept(log, sp, oldest) <==> Kept(log', sp, oldest)
  {
    SameSurvivors(log, log', sp);
    KeptSurvive(log, sp, oldest);
    KeptSurvive(log', sp, oldest);
  }

  lemma KeptSurvive(log: seq<Event>, sp: Span, oldest: int)
    requires sp.Ok()
    ensures Kept(log, sp, oldest)
       <==> forall i :: 0 <= i < |log| && TickOf(log, sp, i) >= oldest ==> Survives(log, sp, i)
  {
  }

  lemma SameShown(log: seq<Event>, log': seq<Event>, sp: Span, oldest: int)
    requires sp.Ok() && SameTimes(log, log')
    ensures Shown(log, sp, oldest) == Shown(log', sp, oldest)
  {
    SameSurvivors(log, log', sp);
  }

  lemma RingsNest(log: seq<Event>, sp1: Span, sp2: Span, now: real)
    requires Reaches(sp1, sp2) && NonNegative(log) && Covered(log, sp1, sp2, now)
    ensures RingTotal(log, sp1, sp1.buckets, Oldest(now, sp1)) <= RingTotal(log, sp2, sp2.buckets, Oldest(now, sp2))
  {
    WindowsNest(log, sp1, sp2, now);
    RingShows(log, sp1, Oldest(now, sp1));
    RingShows(log, sp2, Oldest(now, sp2));
    var a, b := Shown(log, sp1, Oldest(now, sp1)), Shown(log, sp2, Oldest(now, sp2));
    forall i | i in a ensures i in b {
      assert i in InWindow(log, sp1, Oldest(now, sp1));
      assert i in InWindow(log, sp2, Oldest(now, sp2));
    }
    TotalLe(log, a, b, |log|);
  }

  /** Amount |log| + 1 for event k and 1 for all others. */
  ghost function Boosted(log: seq<Event>, k: nat): seq<Event> {
    seq(|log|, i requires 0 <= i < |log| => Event(log[i].at, if i == k then |log| as real + 1.0 else 1.0))
  }

  lemma {:induction false} BoostedWith(log: seq<Event>, k: nat, a: set<int>, n: nat)
    requires k < n <= |log| && k in a
    ensures Total(Boosted(log, k), a, n) >= |log| as real + 1.0
  {
    if k < n - 1 {
      BoostedWith(log, k, a, n - 1);
    } else {
      TotalLe(Boosted(log, k), {}, a, n - 1);
      TotalNone(Boosted(log, k), {}, n - 1);
    }
  }

  lemma {:induction false} BoostedWithout(log: seq<Event>, k: nat, a: set<int>, n: nat)
    requires n <= |log| && k !in a
    ensures Total(Boosted(log, k), a, n) <= n as real
  {
    if n > 0 { BoostedWithout(log, k, a, n - 1); }
  }

  /** An event that sp1 still shows and sp2 has lost: with a large amount it makes sp1's
      window the larger one. */
  lemma UncoveredBreaks(log: seq<Event>, sp1: Span, sp2: Span, now: real) returns (log': seq<Event>)
    requires sp1.Ok() && sp2.Ok() && !Covered(log, sp1, sp2, now)
    ensures SameTimes(log, log') && Positive(log')
    ensures RingTotal(log', sp1, sp1.buckets, Oldest(now, sp1)) > RingTotal(log', sp2, sp2.buckets, Oldest(now, sp2))
  {
    var k :| k in Shown(log, sp1, Oldest(now, sp1)) && !Survives(log, sp2, k);
    log' := Boosted(log, k);
    SameShown(log, log', sp1, Oldest(now, sp1));
    SameShown(log, log', sp2, Oldest(now, sp2));
    RingShows(log', sp1, Oldest(now, sp1));
    RingShows(log', sp2, Oldest(now, sp2));
    BoostedWith(log, k, Shown(log, sp1, Oldest(now, sp1)), |log|);
    BoostedWithout(log, k, Shown(log, sp2, Oldest(now, sp2)), |log|);
  }

  lemma SameCovered(log: seq<Event>, log': seq<Event>, sp1: Span, sp2: Span, now: real)
    requires sp1.Ok() && sp2.Ok() && SameTimes(log, log') && Covered(log, sp1, sp2, now)
    ensures Covered(log', sp1, sp2, now)
  {
    SameShown(log, log', sp1, Oldest(now, sp1));
    SameSurvivors(log, log', sp2);
  }

  ghost predicate RingLe(log: seq<Event>, sp1: Span, sp2: Span, now: real)
    requires sp1.Ok() && sp2.Ok()
  {
    RingTotal(log, sp1, sp1.buckets, Oldest(now, sp1)) <= RingTotal(log, sp2, sp2.buckets, Oldest(now, sp2))
  }

  /** The windows that the rings show nest, for events at these times whatever their positive
      amounts, exactly when all that the smaller one shows survives in the larger one. */
  lemma RingsNestIff(log: seq<Event>, sp1: Span, sp2: Span, now: real)
    requires Reaches(sp1, sp2)
    ensures Covered(log, sp1, sp2, now) <==>
              forall log' :: SameTimes(log, log') && Positive(log') ==> RingLe(log', sp1, sp2, now)
  {
    if Covered(log, sp1, sp2, now) {
      forall log' | SameTimes(log, log') && Positive(log') ensures RingLe(log', sp1, sp2, now) {
        SameCovered(log, log', sp1, sp2, now);
        RingsNest(log', sp1, sp2, now);
      }
    } else {
      var log' := UncoveredBreaks(log, sp1, sp2, now);
      assert !RingLe(log', sp1, sp2, now);
    }
  }

  /** If the larger ring is right, the windows nest. */
  lemma KeptCovers(log: seq<Event>, sp1: Span, sp2: Span, now: real)
    requires Reaches(sp1, sp2) && Kept(log, sp2, Oldest(now, sp2))
    ensures Covered(log, sp1, sp2, now)
  {
    WindowsNest(log, sp1, sp2, now);
    forall i | i in Shown(log, sp1, Oldest(now, sp1)) ensures Survives(log, sp2, i) {
      assert i in InWindow(log, sp1, Oldest(now, sp1));
      assert i in InWindow(log, sp2, Oldest(now, sp2));
    }
  }
}
