/** `_Dimension`: one row of windowed request counts per key, capped, with everything past
    the cap folded into one overflow row. First what the rows are as a function of the
    requests, then the class that keeps them in rings. */
module KeyFold {
  import opened SlotRing
  import opened Folding

  const OVERFLOW: string := "__other__"

  datatype Request = Request(key: string, at: real)

  function One(at: real): Event {
    Event(at, 1.0)
  }

  /** The rows in the order they were created, and each row's events. */
  datatype Rows = Rows(order: seq<string>, logs: map<string, seq<Event>>, truncated: nat)

  predicate Full(d: Rows, cap: nat, key: string) {
    key !in d.logs && |d.order| >= cap
  }

  function RowFor(d: Rows, cap: nat, key: string): string {
    if Full(d, cap, key) then OVERFLOW else key
  }

  /** `ring_for`: the state with the row for key present. */
  function Ensure(d: Rows, cap: nat, key: string): Rows {
    var row := RowFor(d, cap, key);
    Rows(
      if row in d.logs then d.order else d.order + [row],
      if row in d.logs then d.logs else d.logs[row := []],
      d.truncated + if Full(d, cap, key) then 1 else 0)
  }

  /** One request: unattributed ones are not recorded. */
  function Record(d: Rows, cap: nat, r: Request): Rows {
    if r.key == "" then d
    else
      var e := Ensure(d, cap, r.key);
      var row := RowFor(d, cap, r.key);
      assert row in e.logs;
      e.(logs := e.logs[row := e.logs[row] + [One(r.at)]])
  }

  function After(h: seq<Request>, cap: nat): Rows {
    if h == [] then Rows([], map[], 0) else Record(After(h[..|h| - 1], cap), cap, h[|h| - 1])
  }

  // ----- the reference: first come, first served -----

  /** The first cap distinct nonempty keys, in order of arrival. */
  function Admitted(h: seq<Request>, cap: nat): seq<string> {
    if h == [] then []
    else
      var a := Admitted(h[..|h| - 1], cap);
      var k := h[|h| - 1].key;
      if k != "" && k !in a && |a| < cap then a + [k] else a
  }

  function Home(admitted: seq<string>, key: string): string {
    if key in admitted then key else OVERFLOW
  }

  /** The events of the requests whose home is row. */
  function EventsOf(h: seq<Request>, admitted: seq<string>, row: string): seq<Event> {
    if h == [] then []
    else
      var r := h[|h| - 1];
      EventsOf(h[..|h| - 1], admitted, row) + if r.key != "" && Home(admitted, r.key) == row then [One(r.at)] else []
  }

  /** The requests that found no row of their own. */
  function Folded(h: seq<Request>, admitted: seq<string>): seq<Request> {
    if h == [] then []
    else
      var r := h[|h| - 1];
      Folded(h[..|h| - 1], admitted) + if r.key != "" && r.key !in admitted then [r] else []
  }

  /** What is counted as truncated: every folded request, except that once the overflow row
      exists a request naming that row finds it. */
  function Counted(folded: seq<Request>): nat {
    if folded == [] then 0
    else
      var rest := folded[..|folded| - 1];
      Counted(rest) + if folded[|folded| - 1].key == OVERFLOW && rest != [] then 0 else 1
  }

  function AllEvents(h: seq<Request>): seq<Event> {
    if h == [] then []
    else
      var r := h[|h| - 1];
      AllEvents(h[..|h| - 1]) + if r.key != "" then [One(r.at)] else []
  }

  lemma {:induction false} AdmittedBasics(h: seq<Request>, cap: nat)
    ensures |Admitted(h, cap)| <= cap && "" !in Admitted(h, cap)
    ensures forall i, j :: 0 <= i < j < |Admitted(h, cap)| ==> Admitted(h, cap)[i] != Admitted(h, cap)[j]
  {
    if h != [] { AdmittedBasics(h[..|h| - 1], cap); }
  }

  /** A nonempty key that has arrived is admitted unless the cap was reached. */
  lemma {:induction false} LateMeansFull(h: seq<Request>, cap: nat, k: string)
    requires k != "" && k !in Admitted(h, cap)
    requires exists i :: 0 <= i < |h| && h[i].key == k
    ensures |Admitted(h, cap)| == cap
  {
    var n := |h| - 1;
    AdmittedBasics(h, cap);
    if h[n].key != k {
      var i :| 0 <= i < |h| && h[i].key == k;
      assert h[..n][i].key == k;
      LateMeansFull(h[..n], cap, k);
    }
  }

  /** Admitting k later does not move earlier requests, none of which named k. */
  lemma {:induction false} Unmoved(h: seq<Request>, a: seq<string>, k: string, row: string)
    requires forall i :: 0 <= i < |h| ==> h[i].key != k
    ensures EventsOf(h, a + [k], row) == EventsOf(h, a, row)
    ensures Folded(h, a + [k]) == Folded(h, a)
  {
    if h != [] { Unmoved(h[..|h| - 1], a, k, row); }
  }

  lemma {:induction false} NoEvents(h: seq<Request>, a: seq<string>, row: string)
    requires forall i :: 0 <= i < |h| ==> h[i].key == "" || Home(a, h[i].key) != row
    ensures EventsOf(h, a, row) == []
  {
    if h != [] {
      assert h[|h| - 1].key == "" || Home(a, h[|h| - 1].key) != row;
      NoEvents(h[..|h| - 1], a, row);
    }
  }

  lemma {:induction false} NoneFolded(h: seq<Request>, a: seq<string>)
    ensures Folded(h, a) == [] <==> forall i :: 0 <= i < |h| ==> h[i].key == "" || h[i].key in a
  {
    if h != [] {
      var l := h[..|h| - 1];
      NoneFolded(l, a);
      assert forall i :: 0 <= i < |l| ==> l[i] == h[i];
      assert h[|h| - 1].key == "" || h[|h| - 1].key in a ==> (Folded(h, a) == [] <==> Folded(l, a) == []);
    }
  }

  function OrderOf(admitted: seq<string>, folded: seq<Request>): seq<string> {
    if folded == [] || OVERFLOW in admitted then admitted else admitted + [OVERFLOW]
  }

  /** The rows are exactly: one per admitted key, holding that key's events, and an overflow
      row holding all the rest. */
  ghost predicate AreRows(d: Rows, h: seq<Request>, cap: nat) {
    HaveRows(d, h, Admitted(h, cap))
  }

  ghost predicate HaveRows(d: Rows, h: seq<Request>, a: seq<string>) {
    && d.order == OrderOf(a, Folded(h, a))
    && (forall k :: k in d.logs <==> k in d.order)
    && (forall k :: k in d.logs ==> d.logs[k] == EventsOf(h, a, k))
    && d.truncated == Counted(Folded(h, a))
  }

  /** Before the cap is reached every key that arrived has a row, so none was folded and none
      named a key that has no row. */
  lemma NothingFolded(l: seq<Request>, cap: nat, k: string)
    requires |Admitted(l, cap)| < cap && k != "" && k !in Admitted(l, cap)
    ensures forall i :: 0 <= i < |l| ==> l[i].key != k
    ensures Folded(l, Admitted(l, cap)) == []
  {
    var a := Admitted(l, cap);
    forall i | 0 <= i < |l| ensures l[i].key != k && (l[i].key == "" || l[i].key in a) {
      if l[i].key != "" && l[i].key !in a { LateMeansFull(l, cap, l[i].key); }
    }
    NoneFolded(l, a);
  }

  /** Admitting k moves no event and leaves k's row empty. */
  lemma NewRowEmpty(l: seq<Request>, a: seq<string>, k: string)
    requires k != "" && forall i :: 0 <= i < |l| ==> l[i].key != k
    requires Folded(l, a) == []
    ensures Folded(l, a + [k]) == [] && EventsOf(l, a + [k], k) == []
    ensures forall row :: EventsOf(l, a + [k], row) == EventsOf(l, a, row)
  {
    forall row ensures EventsOf(l, a + [k], row) == EventsOf(l, a, row) { Unmoved(l, a, k, row); }
    Unmoved(l, a, k, k);
    NoneFolded(l, a + [k]);
    NoEvents(l, a + [k], k);
  }

  /** One request more, at the end. */
  lemma OneMore(l: seq<Request>, r: Request, a: seq<string>)
    ensures forall row :: EventsOf(l + [r], a, row) ==
              EventsOf(l, a, row) + if r.key != "" && Home(a, r.key) == row then [One(r.at)] else []
    ensures Folded(l + [r], a) == Folded(l, a) + if r.key != "" && r.key !in a then [r] else []
  {
    assert (l + [r])[..|l|] == l;
  }

  lemma {:induction false} AdmittedLogs(l: seq<Request>, r: Request, a: seq<string>, d: Rows, cap: nat)
    requires HaveRows(d, l, a) && |a| < cap && r.key != "" && r.key !in a
    requires Folded(l, a) == [] && forall i :: 0 <= i < |l| ==> l[i].key != r.key
    ensures var e := Record(d, cap, r);
            && e.order == d.order + [r.key] == a + [r.key] && e.truncated == d.truncated
            && (forall k :: k in e.logs <==> k in d.logs || k == r.key)
            && (forall k :: k in e.logs ==> e.logs[k] == EventsOf(l + [r], a + [r.key], k))
  {
    NewRowEmpty(l, a, r.key);
    OneMore(l, r, a + [r.key]);
    assert Home(a + [r.key], r.key) == r.key;
  }

  lemma {:induction false} AdmittedRows(l: seq<Request>, r: Request, a: seq<string>, d: Rows, cap: nat)
    requires HaveRows(d, l, a) && |a| < cap && r.key != "" && r.key !in a
    requires Folded(l, a) == [] && forall i :: 0 <= i < |l| ==> l[i].key != r.key
    ensures HaveRows(Record(d, cap, r), l + [r], a + [r.key])
  {
    AdmittedLogs(l, r, a, d, cap);
    Unmoved(l, a, r.key, "");
    OneMore(l, r, a + [r.key]);
    assert Folded(l + [r], a + [r.key]) == [];
  }

  lemma CountedAppend(folded: seq<Request>, r: Request)
    ensures Counted(folded + [r]) == Counted(folded) + if r.key == OVERFLOW && folded != [] then 0 else 1
  {
    assert (folded + [r])[..|folded|] == folded;
  }

  /** A request without a row of its own goes to the overflow row, new or not. */
  lemma FoldedRow(l: seq<Request>, a: seq<string>, d: Rows, cap: nat, k: string)
    requires |a| == cap && k !in a
    requires d.order == OrderOf(a, Folded(l, a)) && (forall k :: k in d.logs <==> k in d.order)
    ensures RowFor(d, cap, k) == OVERFLOW
    ensures Full(d, cap, k) <==> !(k == OVERFLOW && Folded(l, a) != [])
    ensures OVERFLOW !in d.logs ==> EventsOf(l, a, OVERFLOW) == []
  {
    if OVERFLOW !in d.logs {
      assert Folded(l, a) == [];
      NoneFolded(l, a);
      NoEvents(l, a, OVERFLOW);
    }
    if k == OVERFLOW && Folded(l, a) != [] {
      assert d.order[cap] == OVERFLOW;
    }
  }

  lemma FoldedLogs(l: seq<Request>, r: Request, a: seq<string>, d: Rows, cap: nat)
    requires HaveRows(d, l, a) && |a| == cap && r.key != "" && r.key !in a
    ensures var e := Record(d, cap, r);
            && (forall k :: k in e.logs <==> k in d.logs || k == OVERFLOW)
            && (forall k :: k in e.logs ==> e.logs[k] == EventsOf(l + [r], a, k))
  {
    FoldedRow(l, a, d, cap, r.key);
    OneMore(l, r, a);
    assert Home(a, r.key) == OVERFLOW;
  }

  lemma FoldedOrder(l: seq<Request>, r: Request, a: seq<string>, d: Rows, cap: nat)
    requires HaveRows(d, l, a) && |a| == cap && r.key != "" && r.key !in a
    ensures var e := Record(d, cap, r);
            && e.order == OrderOf(a, Folded(l + [r], a))
            && (forall k :: k in e.order <==> k in d.order || k == OVERFLOW)
  {
    FoldedRow(l, a, d, cap, r.key);
    OneMore(l, r, a);
  }

  lemma FoldedCount(l: seq<Request>, r: Request, a: seq<string>, d: Rows, cap: nat)
    requires HaveRows(d, l, a) && |a| == cap && r.key != "" && r.key !in a
    ensures Record(d, cap, r).truncated == Counted(Folded(l + [r], a))
  {
    FoldedRow(l, a, d, cap, r.key);
    CountedAppend(Folded(l, a), r);
    OneMore(l, r, a);
  }

  lemma FoldedRows(l: seq<Request>, r: Request, a: seq<string>, d: Rows, cap: nat)
    requires HaveRows(d, l, a) && |a| == cap && r.key != "" && r.key !in a
    ensures HaveRows(Record(d, cap, r), l + [r], a)
  {
    FoldedLogs(l, r, a, d, cap);
    FoldedOrder(l, r, a, d, cap);
    FoldedCount(l, r, a, d, cap);
  }

  /** A request that finds its row, or that names none. */
  lemma HeldRows(l: seq<Request>, r: Request, a: seq<string>, d: Rows, cap: nat)
    requires HaveRows(d, l, a) && (r.key == "" || r.key in a)
    ensures HaveRows(Record(d, cap, r), l + [r], a)
  {
    OneMore(l, r, a);
    assert r.key in a ==> r.key in d.order;
    assert Folded(l + [r], a) == Folded(l, a);
  }

  /** The same as HaveRows; a folded definition. */
  ghost predicate InRows(d: Rows, h: seq<Request>, a: seq<string>) {
    forall k :: Opened(h, k) ==> HaveRows(d, h, a)
  }

  lemma InRowsNext(l: seq<Request>, r: Request, a: seq<string>, d: Rows, cap: nat)
    requires InRows(d, l, a) && |a| <= cap
    requires r.key != "" && r.key !in a && |a| < cap ==>
      Folded(l, a) == [] && forall i :: 0 <= i < |l| ==> l[i].key != r.key
    ensures InRows(Record(d, cap, r), l + [r], if r.key != "" && r.key !in a && |a| < cap then a + [r.key] else a)
  {
    assert Opened(l, 0);
    if r.key == "" || r.key in a {
      HeldRows(l, r, a, d, cap);
    } else if |a| < cap {
      AdmittedRows(l, r, a, d, cap);
    } else {
      FoldedRows(l, r, a, d, cap);
    }
  }

  lemma {:induction false} AfterInRows(h: seq<Request>, cap: nat)
    ensures InRows(After(h, cap), h, Admitted(h, cap))
  {
    if h != [] {
      var l, r := h[..|h| - 1], h[|h| - 1];
      AfterInRows(l, cap);
      AdmittedBasics(l, cap);
      var a := Admitted(l, cap);
      if r.key != "" && r.key !in a && |a| < cap { NothingFolded(l, cap, r.key); }
      InRowsNext(l, r, a, After(l, cap), cap);
      assert h == l + [r];
    }
  }

  /** After any run of requests the rows are exactly the first-come-first-served ones. */
  lemma RowsExact(h: seq<Request>, cap: nat)
    ensures AreRows(After(h, cap), h, cap)
  {
    AfterInRows(h, cap);
    assert Opened(h, 0);
  }

  /** There are at most cap + 1 rows, and a row past the cap is the overflow row. */
  lemma RowsCapped(h: seq<Request>, cap: nat)
    ensures |After(h, cap).order| <= cap + 1
    ensures |After(h, cap).order| == cap + 1 ==> After(h, cap).order[cap] == OVERFLOW
    ensures forall i, j :: 0 <= i < j < |After(h, cap).order| ==> After(h, cap).order[i] != After(h, cap).order[j]
  {
    RowsExact(h, cap);
    AdmittedBasics(h, cap);
  }

  // ----- conservation -----

  /** The sum over rows of what each records in a window. */
  function RowTotal(rows: seq<string>, logs: map<string, seq<Event>>, sp: Span, oldest: int): real
    requires sp.Ok() && forall r :: r in rows ==> r in logs
  {
    if rows == [] then 0.0 else Recorded(logs[rows[0]], sp, oldest) + RowTotal(rows[1..], logs, sp, oldest)
  }

  function HomeTotal(rows: seq<string>, h: seq<Request>, a: seq<string>, sp: Span, oldest: int): real
    requires sp.Ok()
  {
    if rows == [] then 0.0 else Recorded(EventsOf(h, a, rows[0]), sp, oldest) + HomeTotal(rows[1..], h, a, sp, oldest)
  }

  lemma {:induction false} HomeStep(rows: seq<string>, h: seq<Request>, a: seq<string>, sp: Span, oldest: int)
    requires sp.Ok() && h != []
    requires forall i, j :: 0 <= i < j < |rows| ==> rows[i] != rows[j]
    ensures var r := h[|h| - 1];
            HomeTotal(rows, h, a, sp, oldest) == HomeTotal(rows, h[..|h| - 1], a, sp, oldest)
              + if r.key != "" && Home(a, r.key) in rows && Tick(r.at, sp) >= oldest then 1.0 else 0.0
  {
    if rows != [] {
      HomeStep(rows[1..], h, a, sp, oldest);
      var l, r := h[..|h| - 1], h[|h| - 1];
      assert Home(a, r.key) in rows <==> Home(a, r.key) == rows[0] || Home(a, r.key) in rows[1..];
      RecordedAppend(EventsOf(l, a, rows[0]), One(r.at), sp, oldest);
      assert EventsOf(l, a, rows[0]) + [] == EventsOf(l, a, rows[0]);
    }
  }

  lemma {:induction false} HomeEmpty(rows: seq<string>, a: seq<string>, sp: Span, oldest: int)
    requires sp.Ok()
    ensures HomeTotal(rows, [], a, sp, oldest) == 0.0
  {
    if rows != [] { HomeEmpty(rows[1..], a, sp, oldest); }
  }

  lemma {:induction false} HomesCover(rows: seq<string>, h: seq<Request>, a: seq<string>, sp: Span, oldest: int)
    requires sp.Ok()
    requires forall i, j :: 0 <= i < j < |rows| ==> rows[i] != rows[j]
    requires forall i :: 0 <= i < |h| && h[i].key != "" ==> Home(a, h[i].key) in rows
    ensures HomeTotal(rows, h, a, sp, oldest) == Recorded(AllEvents(h), sp, oldest)
  {
    if h == [] {
      HomeEmpty(rows, a, sp, oldest);
    } else {
      var l, r := h[..|h| - 1], h[|h| - 1];
      assert forall i :: 0 <= i < |l| ==> l[i] == h[i];
      HomesCover(rows, l, a, sp, oldest);
      HomeStep(rows, h, a, sp, oldest);
      RecordedAppend(AllEvents(l), One(r.at), sp, oldest);
      assert AllEvents(l) + [] == AllEvents(l);
    }
  }

  lemma {:induction false} RowsAreHomes(rows: seq<string>, logs: map<string, seq<Event>>, h: seq<Request>,
                                        a: seq<string>, sp: Span, oldest: int)
    requires sp.Ok() && forall r :: r in rows ==> r in logs && logs[r] == EventsOf(h, a, r)
    ensures RowTotal(rows, logs, sp, oldest) == HomeTotal(rows, h, a, sp, oldest)
  {
    if rows != [] {
      assert rows[0] in rows;
      RowsAreHomes(rows[1..], logs, h, a, sp, oldest);
    }
  }

  /** No attributed request is lost to the cap: over all rows, the overflow row included,
      a window records what all attributed requests would record in one ring. */
  lemma Conserved(h: seq<Request>, cap: nat, sp: Span, oldest: int)
    requires sp.Ok()
    ensures var d := After(h, cap);
            (forall r :: r in d.order ==> r in d.logs) &&
                RowTotal(d.order, d.logs, sp, oldest) == Recorded(AllEvents(h), sp, oldest)
  {
    RowsExact(h, cap);
    RowsCapped(h, cap);
    var a, d := Admitted(h, cap), After(h, cap);
    NoneFolded(h, a);
    forall i | 0 <= i < |h| && h[i].key != "" ensures Home(a, h[i].key) in d.order {
    }
    HomesCover(d.order, h, a, sp, oldest);
    RowsAreHomes(d.order, d.logs, h, a, sp, oldest);
  }

  // ----- the rows inherit the clock -----

  lemma {:induction false} RowPositive(h: seq<Request>, a: seq<string>, row: string)
    ensures Positive(EventsOf(h, a, row))
  {
    if h != [] {
      RowPositive(h[..|h| - 1], a, row);
    }
  }

  ghost predicate Clocked(h: seq<Request>) {
    forall i, j :: 0 <= i < j < |h| ==> h[i].at <= h[j].at
  }

  lemma {:induction false} RowClocked(h: seq<Request>, a: seq<string>, row: string)
    requires Clocked(h)
    ensures Nondecreasing(EventsOf(h, a, row))
    ensures forall i :: 0 <= i < |EventsOf(h, a, row)| ==> h != [] && EventsOf(h, a, row)[i].at <= h[|h| - 1].at
  {
    if h != [] {
      RowClocked(h[..|h| - 1], a, row);
    }
  }
}

module Dimensions {
  import opened SlotRing
  import opened SpanRings
  import opened KeyFold

  const LEDGER_MAX_KEYS: nat := 256

  class Dimension {
    const cap: nat
    /** The dictionary's keys in insertion order, and its values. */
    var order: seq<string>
    var keys: map<string, SpanRing>
    var truncated: nat
    /** Every request recorded so far, each row's events, and the objects in use. */
    ghost var history: seq<Request>
    ghost var logs: map<string, seq<Event>>
    ghost var Repr: set<object>

    /** The rings are separate objects. */
    ghost predicate Separate()
      reads this
    {
      && this in Repr
      && (forall k :: k in keys ==> keys[k].Footprint() <= Repr && this !in keys[k].Footprint())
      && (forall k, l :: k in keys && l in keys && k != l ==> keys[k].Footprint() !! keys[l].Footprint())
    }

    /** Each ring is sound and holds its row's events. */
    ghost predicate Owned()
      reads this, Repr
    {
      && Separate()
      && logs.Keys == keys.Keys
      && (forall k :: k in keys ==> keys[k].Holding(LEDGER_PLAN, logs[k]))
    }

    ghost function View(): Rows
      reads this
    {
      Rows(order, logs, truncated)
    }

    ghost predicate Valid()
      reads this, Repr
    {
      Owned() && View() == After(history, cap)
    }

    constructor (cap: nat := LEDGER_MAX_KEYS)
      ensures Valid() && fresh(Repr) && this.cap == cap && history == []
    {
      this.cap := cap;
      order, keys, truncated := [], map[], 0;
      history, logs, Repr := [], map[], {this};
    }

    /** The ring to record key in, or null for an unattributed request. */
    method RingFor(key: string) returns (ring: SpanRing?)
      requires Owned()
      modifies this
      ensures Owned() && fresh(Repr - old(Repr)) && history == old(history)
      ensures key == "" ==> ring == null && View() == old(View())
      ensures key != "" ==>
        && View() == Ensure(old(View()), cap, key)
        && RowFor(old(View()), cap, key) in keys && ring == keys[RowFor(old(View()), cap, key)]
    {
      if key == "" {
        return null;
      }
      if key in keys {
        return keys[key];
      }
      var row := key;
      if |order| >= cap {
        truncated := truncated + 1;
        if OVERFLOW in keys {
          return keys[OVERFLOW];
        }
        row := OVERFLOW;
      }
      ring := NewRow(row);
    }

    method NewRow(row: string) returns (ring: SpanRing)
      requires Owned() && row !in keys
      modifies this`order, this`keys, this`logs, this`Repr
      ensures Owned() && fresh(Repr - old(Repr))
      ensures order == old(order) + [row] && logs == old(logs)[row := []]
      ensures row in keys && ring == keys[row]
    {
      ring := new SpanRing();
      Install(row, ring);
    }

    method Install(row: string, ring: SpanRing)
      requires Owned() && row !in keys
      requires ring.Holding(LEDGER_PLAN, []) && ring.Footprint() !! Repr
      modifies this`order, this`keys, this`logs, this`Repr
      ensures Owned() && Repr == old(Repr) + ring.Footprint()
      ensures order == old(order) + [row] && logs == old(logs)[row := []]
      ensures keys == old(keys)[row := ring]
    {
      order := order + [row];
      keys := keys[row := ring];
      Repr := Repr + ring.Footprint();
      logs := logs[row := []];
    }

    /** Add to a ring that was looked up, the row's own. */
    method AddTo(ring: SpanRing, ghost row: string, now: real)
      requires Owned() && row in keys && ring == keys[row]
      modifies this`logs, ring.Footprint()
      ensures Owned() && logs == old(logs)[row := old(logs)[row] + [One(now)]]
    {
      ring.Add(now);
      logs := logs[row := logs[row] + [One(now)]];
    }

    /** What the ledger does with one request: find the ring and add to it. */
    method FindAndAdd(key: string, now: real)
      requires Owned()
      modifies Repr
      ensures Owned() && fresh(Repr - old(Repr)) && history == old(history)
      ensures View() == KeyFold.Record(old(View()), cap, Request(key, now))
    {
      ghost var row := RowFor(View(), cap, key);
      var ring := RingFor(key);
      if ring != null {
        AddTo(ring, row, now);
      }
    }

    method Record(key: string, now: real)
      requires Valid()
      modifies Repr
      ensures Valid() && fresh(Repr - old(Repr))
      ensures history == old(history) + [Request(key, now)]
    {
      FindAndAdd(key, now);
      history := history + [Request(key, now)];
      assert history[..|history| - 1] == old(history);
    }

    /** Per row, in the order of creation, the integer total of each span. */
    method Payload(now: real) returns (payload: map<string, seq<int>>)
      requires Valid()
      ensures payload.Keys == keys.Keys && forall k :: k in order ==> k in keys
      ensures forall k :: k in keys ==> payload[k] == RowWindows(logs[k], now) && InSeconds(logs[k], now, payload[k])
    {
      payload := map[];
      RowsExact(history, cap);
      for j := 0 to |order|
        invariant forall k :: k in payload <==> k in order[..j]
        invariant forall k :: k in payload ==> k in keys && payload[k] == RowWindows(logs[k], now)
      {
        var key := order[j];
        assert order[..j + 1] == order[..j] + [key];
        assert key in keys && keys[key].Holding(LEDGER_PLAN, logs[key]);
        var w0 := keys[key].Window(now, 0);
        var w1 := keys[key].Window(now, 1);
        var w2 := keys[key].Window(now, 2);
        payload := payload[key := [w0.Floor, w1.Floor, w2.Floor]];
      }
      assert order[..|order|] == order;
      forall k | k in keys ensures InSeconds(logs[k], now, payload[k]) {
        RowOnes(history, Admitted(history, cap), k);
        RowInSeconds(logs[k], now);
      }
    }
  }

  /** `int(ring.window(now, i))` for one span. */
  function RowWindow(log: seq<Event>, now: real, sp: Span): int
    requires sp.Ok()
  {
    RingTotal(log, sp, sp.buckets, Oldest(now, sp)).Floor
  }

  function RowWindows(log: seq<Event>, now: real): seq<int> {
    [RowWindow(log, now, LEDGER_PLAN[0]), RowWindow(log, now, LEDGER_PLAN[1]), RowWindow(log, now, LEDGER_PLAN[2])]
  }

  /** How many events lie at the given time or later, and how many later only. */
  function From(log: seq<Event>, time: real): nat {
    if log == [] then 0 else From(log[..|log| - 1], time) + if log[|log| - 1].at >= time then 1 else 0
  }

  function Later(log: seq<Event>, time: real): nat {
    if log == [] then 0 else Later(log[..|log| - 1], time) + if log[|log| - 1].at > time then 1 else 0
  }

  ghost predicate Ones(log: seq<Event>) {
    forall i :: 0 <= i < |log| ==> log[i].amount == 1.0
  }

  /** What a window of n buckets of w seconds records: all events of the last (n - 1) * w seconds,
      and none older than n * w. */
  lemma {:induction false} RecordedInSeconds(log: seq<Event>, now: real, sp: Span)
    requires sp.Ok() && Ones(log)
    ensures From(log, now - ((sp.buckets - 1) * sp.width) as real) as real <= Recorded(log, sp, Oldest(now, sp))
    ensures Recorded(log, sp, Oldest(now, sp)) <= Later(log, now - (sp.buckets * sp.width) as real) as real
  {
    if log != [] {
      RecordedInSeconds(log[..|log| - 1], now, sp);
      WindowInSeconds(log[|log| - 1].at, now, sp);
    }
  }

  /** The shown integer counts no event that is as old as the whole span or older; if nothing
      was overwritten, it counts all that are younger than the span by a bucket. */
  lemma WindowCounts(log: seq<Event>, now: real, sp: Span)
    requires sp.Ok() && Ones(log)
    ensures RowWindow(log, now, sp) <= Later(log, now - (sp.buckets * sp.width) as real)
    ensures Kept(log, sp, Oldest(now, sp)) ==>
              From(log, now - ((sp.buckets - 1) * sp.width) as real) <= RowWindow(log, now, sp)
  {
    RingExactIff(log, sp, Oldest(now, sp));
    RecordedInSeconds(log, now, sp);
  }

  /** The three columns: the last 60 seconds, to the second, the last 300 seconds, to 5 seconds,
      and the last day, to a quarter of an hour. */
  ghost predicate InSeconds(log: seq<Event>, now: real, row: seq<int>) {
    && |row| == 3
    && row[0] <= Later(log, now - 60.0) && row[1] <= Later(log, now - 300.0) && row[2] <= Later(log, now - 86400.0)
    && ((forall sp :: sp in LEDGER_PLAN ==> Kept(log, sp, Oldest(now, sp))) ==>
          && row[0] >= From(log, now - 59.0)
          && row[1] >= From(log, now - 295.0)
          && row[2] >= From(log, now - 85500.0))
  }

  lemma RowInSeconds(log: seq<Event>, now: real)
    requires Ones(log)
    ensures InSeconds(log, now, RowWindows(log, now))
  {
    WindowCounts(log, now, LEDGER_PLAN[0]);
    WindowCounts(log, now, LEDGER_PLAN[1]);
    WindowCounts(log, now, LEDGER_PLAN[2]);
  }

  lemma {:induction false} RowOnes(h: seq<Request>, a: seq<string>, row: string)
    ensures Ones(EventsOf(h, a, row))
  {
    if h != [] { RowOnes(h[..|h| - 1], a, row); }
  }

  /** The number of attributed requests a window covers. */
  function Attributed(h: seq<Request>, sp: Span, oldest: int): nat
    requires sp.Ok()
  {
    if h == [] then 0
    else
      var r := h[|h| - 1];
      Attributed(h[..|h| - 1], sp, oldest) + if r.key != "" && Tick(r.at, sp) >= oldest then 1 else 0
  }

  lemma {:induction false} AttributedRecorded(h: seq<Request>, sp: Span, oldest: int)
    requires sp.Ok()
    ensures Recorded(AllEvents(h), sp, oldest) == Attributed(h, sp, oldest) as real
  {
    if h != [] {
      var l := h[..|h| - 1];
      AttributedRecorded(l, sp, oldest);
      RecordedAppend(AllEvents(l), One(h[|h| - 1].at), sp, oldest);
      assert AllEvents(l) + [] == AllEvents(l);
    }
  }

  /** The requests of one row are a row's worth of attributed requests: a whole number. */
  lemma {:induction false} RowWhole(h: seq<Request>, a: seq<string>, row: string, sp: Span, oldest: int)
    returns (n: nat)
    requires sp.Ok()
    ensures Recorded(EventsOf(h, a, row), sp, oldest) == n as real
  {
    if h == [] {
      n := 0;
    } else {
      var l, r := h[..|h| - 1], h[|h| - 1];
      n := RowWhole(l, a, row, sp, oldest);
      RecordedAppend(EventsOf(l, a, row), One(r.at), sp, oldest);
      assert EventsOf(l, a, row) + [] == EventsOf(l, a, row);
      n := n + if r.key != "" && Home(a, r.key) == row && Tick(r.at, sp) >= oldest then 1 else 0;
    }
  }

  lemma WindowWhole(log: seq<Event>, now: real, sp: Span, n: nat)
    requires sp.Ok() && Positive(log) && Recorded(log, sp, Oldest(now, sp)) == n as real
    ensures RowWindow(log, now, sp) == n <==> Kept(log, sp, Oldest(now, sp))
    ensures RowWindow(log, now, sp) <= n
  {
    RingExactIff(log, sp, Oldest(now, sp));
  }

  /** One integer of the payload never exceeds what its row recorded, and equals it exactly
      when the row lost nothing it should count: the truncation drops nothing. */
  lemma RowExactIff(h: seq<Request>, cap: nat, now: real, row: string, sp: Span)
    requires sp.Ok() && row in After(h, cap).logs
    ensures var log := After(h, cap).logs[row]; var shown, due := RowWindow(log, now, sp),
            Recorded(log, sp, Oldest(now, sp));
            shown as real <= due && (shown as real == due <==> Kept(log, sp, Oldest(now, sp)))
  {
    RowsExact(h, cap);
    var a := Admitted(h, cap);
    RowPositive(h, a, row);
    var n := RowWhole(h, a, row, sp, Oldest(now, sp));
    WindowWhole(EventsOf(h, a, row), now, sp, n);
  }

  /** Every row has lost nothing that it should count. */
  ghost predicate RowsKept(rows: seq<string>, logs: map<string, seq<Event>>, now: real, sp: Span)
    requires sp.Ok() && forall r :: r in rows ==> r in logs
  {
    forall r :: r in rows ==> Kept(logs[r], sp, Oldest(now, sp))
  }

  /** So it is when the clock never ran backwards. */
  lemma ClockKeepsRows(h: seq<Request>, cap: nat, now: real, sp: Span)
    requires Clocked(h) && (h != [] ==> h[|h| - 1].at <= now) && sp.Ok()
    ensures forall r :: r in After(h, cap).order ==> r in After(h, cap).logs
    ensures RowsKept(After(h, cap).order, After(h, cap).logs, now, sp)
  {
    RowsExact(h, cap);
    var a, d := Admitted(h, cap), After(h, cap);
    forall r | r in d.order ensures Kept(d.logs[r], sp, Oldest(now, sp)) {
      RowClocked(h, a, r);
      NondecreasingKeeps(EventsOf(h, a, r), sp, now);
    }
  }

  function ColumnTotal(rows: seq<string>, logs: map<string, seq<Event>>, now: real, sp: Span): int
    requires sp.Ok() && forall r :: r in rows ==> r in logs
  {
    if rows == [] then 0 else RowWindow(logs[rows[0]], now, sp) + ColumnTotal(rows[1..], logs, now, sp)
  }

  lemma RowsKeptNext(rows: seq<string>, logs: map<string, seq<Event>>, now: real, sp: Span)
    requires sp.Ok() && rows != [] && forall r :: r in rows ==> r in logs
    ensures RowsKept(rows, logs, now, sp) <==>
              Kept(logs[rows[0]], sp, Oldest(now, sp)) && RowsKept(rows[1..], logs, now, sp)
  {
    assert forall r :: r in rows <==> r == rows[0] || r in rows[1..];
  }

  lemma {:induction false} ColumnExactIff(rows: seq<string>, h: seq<Request>, cap: nat, now: real, sp: Span)
    requires sp.Ok() && forall r :: r in rows ==> r in After(h, cap).logs
    ensures var logs := After(h, cap).logs;
            var shown, due := ColumnTotal(rows, logs, now, sp), RowTotal(rows, logs, sp, Oldest(now, sp));
            shown as real <= due && (shown as real == due <==> RowsKept(rows, logs, now, sp))
  {
    if rows != [] {
      assert rows[0] in rows;
      RowExactIff(h, cap, now, rows[0], sp);
      ColumnExactIff(rows[1..], h, cap, now, sp);
      RowsKeptNext(rows, After(h, cap).logs, now, sp);
    }
  }

  /** Whatever the clock did: for each span, the integers shown for all rows, the overflow row
      included, never add up to more than the number of attributed requests in that span's
      window, and they add up to it exactly when no row has lost a request it should count. */
  lemma PayloadConservedIff(h: seq<Request>, cap: nat, now: real, sp: Span)
    requires sp.Ok()
    ensures forall r :: r in After(h, cap).order ==> r in After(h, cap).logs
    ensures var d := After(h, cap);
            var shown, due := ColumnTotal(d.order, d.logs, now, sp), Attributed(h, sp, Oldest(now, sp));
            shown <= due && (shown == due <==> RowsKept(d.order, d.logs, now, sp))
  {
    Conserved(h, cap, sp, Oldest(now, sp));
    ColumnExactIff(After(h, cap).order, h, cap, now, sp);
    AttributedRecorded(h, sp, Oldest(now, sp));
  }

  /** So they do when the clock never ran backwards. */
  lemma PayloadConserved(h: seq<Request>, cap: nat, now: real, sp: Span)
    requires Clocked(h) && (h != [] ==> h[|h| - 1].at <= now) && sp.Ok()
    ensures forall r :: r in After(h, cap).order ==> r in After(h, cap).logs
    ensures ColumnTotal(After(h, cap).order, After(h, cap).logs, now, sp) == Attributed(h, sp, Oldest(now, sp))
  {
    ClockKeepsRows(h, cap, now, sp);
    PayloadConservedIff(h, cap, now, sp);
  }
}
