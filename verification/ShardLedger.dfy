/** `BatchRequestLedger`: which backend each shard of a batch went to. First the ledger as a
    value and its four operations, then the class that updates it in place. */
module ShardSteps {
  import opened Wrappers

  type Key = (string, int)

  datatype Backend = Backend(baseUrl: string, enabled: bool)

  const MAX_ENTRIES: nat := 8192

  /** The assignments dictionary, its keys in insertion order, and the done-set. */
  datatype Ledger = Ledger(order: seq<Key>, urls: map<Key, string>, completed: set<Key>) {
    ghost predicate Ok() {
      && (forall k :: k in urls <==> k in order)
      && (forall i, j :: 0 <= i < j < |order| ==> order[i] != order[j])
    }
  }

  function Members(keys: seq<Key>): set<Key> {
    set k | k in keys
  }

  function EnabledUrls(backends: seq<Backend>): seq<string> {
    if backends == [] then []
    else (if backends[0].enabled then [backends[0].baseUrl] else []) + EnabledUrls(backends[1..])
  }

  /** Drop the oldest-inserted n assignments. */
  function DropOldest(s: Ledger, n: nat): Ledger
    requires n <= |s.order|
  {
    var gone := Members(s.order[..n]);
    Ledger(s.order[n..], s.urls - gone, s.completed - gone)
  }

  function EvictIfFull(s: Ledger): Ledger {
    if |s.order| < MAX_ENTRIES then s else DropOldest(s, |s.order| / 2)
  }

  /** A dictionary write: a new key goes to the end, a held one keeps its place. */
  function Put(s: Ledger, key: Key, url: string): Ledger {
    Ledger(if key in s.urls then s.order else s.order + [key], s.urls[key := url], s.completed)
  }

  function RoundRobin(urls: seq<string>, index: int): string
    requires urls != []
  {
    urls[index % |urls|]
  }

  function Assign(s: Ledger, key: Key, urls: seq<string>): (Ledger, Option<string>) {
    if key in s.urls then (s, Some(s.urls[key]))
    else if urls == [] then (s, None)
    else
      var url := RoundRobin(urls, key.1);
      (Put(EvictIfFull(s), key, url), Some(url))
  }

  /** `urls.index(current)`, or -1. */
  function IndexOf(urls: seq<string>, current: string): (i: int)
    ensures -1 <= i < |urls|
    ensures i >= 0 ==> urls[i] == current && forall k :: 0 <= k < i ==> urls[k] != current
    ensures i == -1 <==> current !in urls
  {
    IndexFrom(urls, 0, current)
  }

  function IndexFrom(urls: seq<string>, i: nat, current: string): (r: int)
    requires i <= |urls|
    ensures -1 <= r < |urls|
    ensures r >= 0 ==> i <= r && urls[r] == current && forall k :: i <= k < r ==> urls[k] != current
    ensures r == -1 ==> forall k :: i <= k < |urls| ==> urls[k] != current
    decreases |urls| - i
  {
    if i == |urls| then -1 else if urls[i] == current then i else IndexFrom(urls, i + 1, current)
  }

  /** The first URL from position i on that is not the current one. */
  function FirstOther(urls: seq<string>, i: nat, current: string): (r: Option<string>)
    requires i <= |urls|
    ensures r.Some? ==> exists k :: i <= k < |urls| && urls[k] == r.value && r.value != current
    ensures r.None? ==> forall k :: i <= k < |urls| ==> urls[k] == current
    decreases |urls| - i
  {
    if i == |urls| then None
    else if urls[i] != current then Some(urls[i])
    else FirstOther(urls, i + 1, current)
  }

  function NextUrl(urls: seq<string>, current: string): Option<string> {
    FirstOther(urls, IndexOf(urls, current) + 1, current)
  }

  function Reassign(s: Ledger, key: Key, urls: seq<string>, current: string): (Ledger, Option<string>) {
    if key in s.completed then (s, None)
    else
      var next := NextUrl(urls, current);
      (if next.Some? then Put(s, key, next.value) else s, next)
  }

  function MarkDone(s: Ledger, key: Key): Ledger {
    s.(completed := s.completed + {key})
  }

  lemma DropOneMore(s: Ledger, i: nat)
    requires i < |s.order|
    ensures var t, key := DropOldest(s, i), s.order[i];
            DropOldest(s, i + 1) == Ledger(t.order[1..], t.urls - {key}, t.completed - {key})
    ensures s.order[i..][1..] == s.order[i + 1..]
  {
    assert s.order[..i + 1] == s.order[..i] + [s.order[i]];
    assert Members(s.order[..i + 1]) == Members(s.order[..i]) + {s.order[i]};
  }

  // ----- runs -----

  datatype Op =
    | DoAssign(key: Key, urls: seq<string>)
    | DoReassign(key: Key, urls: seq<string>, current: string)
    | DoMark(key: Key)

  function Step(s: Ledger, op: Op): Ledger {
    match op
    case DoAssign(key, urls) => Assign(s, key, urls).0
    case DoReassign(key, urls, current) => Reassign(s, key, urls, current).0
    case DoMark(key) => MarkDone(s, key)
  }

  function Run(s: Ledger, ops: seq<Op>): Ledger
    decreases |ops|
  {
    if ops == [] then s else Run(Step(s, ops[0]), ops[1..])
  }

  const EMPTY: Ledger := Ledger([], map[], {})

  lemma DropOk(s: Ledger, n: nat)
    requires s.Ok() && n <= |s.order|
    ensures DropOldest(s, n).Ok()
    ensures forall k :: k in DropOldest(s, n).urls <==> k in s.order[n..]
  {
    assert s.order == s.order[..n] + s.order[n..];
    forall k ensures k in DropOldest(s, n).urls <==> k in s.order[n..] {
      assert k in s.urls <==> k in s.order[..n] || k in s.order[n..];
    }
  }

  lemma StepOk(s: Ledger, op: Op)
    requires s.Ok()
    ensures Step(s, op).Ok()
  {
    if |s.order| >= MAX_ENTRIES {
      DropOk(s, |s.order| / 2);
    }
  }

  /** What a reassignment needs to insert a key past the eviction check. */
  predicate Overflows(s: Ledger, op: Op) {
    && op.DoReassign?
    && |s.order| == MAX_ENTRIES
    && op.key !in s.urls && op.key !in s.completed
    && NextUrl(op.urls, op.current).Some?
  }

  /** One operation keeps the bound exactly when it is not a reassignment that inserts a key
      the full ledger does not hold: reassignment does not evict. */
  lemma BoundKeptIff(s: Ledger, op: Op)
    requires s.Ok() && |s.order| <= MAX_ENTRIES
    ensures |Step(s, op).order| <= MAX_ENTRIES <==> !Overflows(s, op)
  {
  }

  /** The bound holds now and after every operation of the run. */
  predicate NeverExceeds(s: Ledger, ops: seq<Op>)
    decreases |ops|
  {
    |s.order| <= MAX_ENTRIES && (ops == [] || NeverExceeds(Step(s, ops[0]), ops[1..]))
  }

  predicate NeverOverflows(s: Ledger, ops: seq<Op>)
    decreases |ops|
  {
    ops == [] || (!Overflows(s, ops[0]) && NeverOverflows(Step(s, ops[0]), ops[1..]))
  }

  /** Over a run the bound holds throughout exactly when no step is such a reassignment. */
  lemma {:induction false} RunBoundIff(s: Ledger, ops: seq<Op>)
    requires s.Ok() && |s.order| <= MAX_ENTRIES
    ensures NeverExceeds(s, ops) <==> NeverOverflows(s, ops)
    decreases |ops|
  {
    if ops != [] {
      StepOk(s, ops[0]);
      BoundKeptIff(s, ops[0]);
      if !Overflows(s, ops[0]) { RunBoundIff(Step(s, ops[0]), ops[1..]); }
    }
  }

  lemma {:induction false} RunSnoc(s: Ledger, ops: seq<Op>, op: Op)
    ensures Run(s, ops + [op]) == Step(Run(s, ops), op)
    decreases |ops|
  {
    if ops == [] {
      assert ops + [op] == [op] && [op][1..] == [];
    } else {
      assert (ops + [op])[1..] == ops[1..] + [op];
      RunSnoc(Step(s, ops[0]), ops[1..], op);
    }
  }

  /** Assignments of the shards 0 to n - 1 of a batch. */
  function Fill(batch: string, url: string, n: nat): seq<Op> {
    if n == 0 then [] else Fill(batch, url, n - 1) + [DoAssign((batch, n - 1), [url])]
  }

  lemma {:induction false} FillHolds(batch: string, url: string, n: nat)
    requires n <= MAX_ENTRIES
    ensures var s := Run(EMPTY, Fill(batch, url, n));
            && s.Ok() && |s.order| == n && s.completed == {}
            && forall i :: i >= n ==> (batch, i) !in s.urls
  {
    if n > 0 {
      FillHolds(batch, url, n - 1);
      var s := Run(EMPTY, Fill(batch, url, n - 1));
      RunSnoc(EMPTY, Fill(batch, url, n - 1), DoAssign((batch, n - 1), [url]));
      StepOk(s, DoAssign((batch, n - 1), [url]));
    }
  }

  /** From launch: a batch fills the ledger, and a reassignment of one more shard exceeds it. */
  lemma LedgerGrows(batch: string, url: string, current: string)
    requires url != current
    ensures |Run(EMPTY, Fill(batch, url, MAX_ENTRIES) + [DoReassign((batch, MAX_ENTRIES), [url], current)]).order| ==
        MAX_ENTRIES + 1
  {
    var op := DoReassign((batch, MAX_ENTRIES), [url], current);
    FillHolds(batch, url, MAX_ENTRIES);
    RunSnoc(EMPTY, Fill(batch, url, MAX_ENTRIES), op);
    assert current !in [url];
    FirstOtherAt([url], 0, 0, current);
  }

  // ----- completion marks -----

  /** A completion mark for a shard that the ledger does not hold. */
  predicate Stray(s: Ledger, op: Op) {
    op.DoMark? && op.key !in s.urls
  }

  /** One operation keeps the marks within the held shards exactly when it is no stray mark. */
  lemma MarksHeldIff(s: Ledger, op: Op)
    requires s.Ok() && s.completed <= s.urls.Keys
    ensures Step(s, op).completed <= Step(s, op).urls.Keys <==> !Stray(s, op)
  {
    if Stray(s, op) {
      assert op.key in Step(s, op).completed;
    }
  }

  /** Only held shards are marked, now and after every operation of the run. */
  ghost predicate MarksHeldThroughout(s: Ledger, ops: seq<Op>)
    decreases |ops|
  {
    s.completed <= s.urls.Keys && (ops == [] || MarksHeldThroughout(Step(s, ops[0]), ops[1..]))
  }

  predicate NeverStray(s: Ledger, ops: seq<Op>)
    decreases |ops|
  {
    ops == [] || (!Stray(s, ops[0]) && NeverStray(Step(s, ops[0]), ops[1..]))
  }

  /** Over a run only held shards are marked throughout exactly when no mark is stray. */
  lemma {:induction false} RunMarksHeldIff(s: Ledger, ops: seq<Op>)
    requires s.Ok() && s.completed <= s.urls.Keys
    ensures MarksHeldThroughout(s, ops) <==> NeverStray(s, ops)
    decreases |ops|
  {
    if ops != [] {
      StepOk(s, ops[0]);
      MarksHeldIff(s, ops[0]);
      if !Stray(s, ops[0]) { RunMarksHeldIff(Step(s, ops[0]), ops[1..]); }
    }
  }

  /** The operation evicts, and the key is in the older half. */
  predicate Evicts(s: Ledger, op: Op, key: Key) {
    && op.DoAssign? && op.key !in s.urls && op.urls != []
    && |s.order| >= MAX_ENTRIES && key in s.order[..|s.order| / 2]
  }

  /** A mark leaves only when its shard is evicted: one whose shard is not held stays at least
      until the shard has been assigned after all. */
  lemma MarkLeavesIff(s: Ledger, op: Op, key: Key)
    requires s.Ok() && key in s.completed
    ensures key !in Step(s, op).completed <==> Evicts(s, op, key)
    ensures key !in s.urls ==> key in Step(s, op).completed
  {
    assert key in s.order[..|s.order| / 2] ==> key in s.order;
  }

  /** Reassignments and completion marks name keys the ledger holds at that moment. */
  predicate OnHeldKeys(s: Ledger, ops: seq<Op>)
    decreases |ops|
  {
    ops == [] ||
    ((ops[0].DoAssign? || ops[0].key in s.urls) && OnHeldKeys(Step(s, ops[0]), ops[1..]))
  }

  /** On held keys every run keeps at most MAX_ENTRIES assignments, and only held shards are
      marked done. */
  lemma {:induction false} RunBounded(s: Ledger, ops: seq<Op>)
    requires s.Ok() && |s.order| <= MAX_ENTRIES && s.completed <= s.urls.Keys && OnHeldKeys(s, ops)
    ensures NeverExceeds(s, ops) && MarksHeldThroughout(s, ops)
    ensures Run(s, ops).Ok() && |Run(s, ops).order| <= MAX_ENTRIES && Run(s, ops).completed <= Run(s, ops).urls.Keys
    decreases |ops|
  {
    if ops != [] {
      StepOk(s, ops[0]);
      BoundKeptIff(s, ops[0]);
      MarksHeldIff(s, ops[0]);
      RunBounded(Step(s, ops[0]), ops[1..]);
    }
  }

  /** A single mark after launch is stray. */
  lemma StrayMark(key: Key)
    ensures !MarksHeldThroughout(EMPTY, [DoMark(key)])
  {
    assert [DoMark(key)][1..] == [];
    RunMarksHeldIff(EMPTY, [DoMark(key)]);
  }

  // ----- sticky assignments -----

  ghost predicate HeldThroughout(s: Ledger, ops: seq<Op>, key: Key)
    decreases |ops|
  {
    key in s.urls && (ops == [] || HeldThroughout(Step(s, ops[0]), ops[1..], key))
  }

  /** A completed shard keeps its backend, and stays completed, for as long as it is held. */
  lemma {:induction false} CompletedSticks(s: Ledger, ops: seq<Op>, key: Key)
    requires s.Ok() && HeldThroughout(s, ops, key) && key in s.completed
    ensures key in Run(s, ops).urls && Run(s, ops).urls[key] == s.urls[key] && key in Run(s, ops).completed
    decreases |ops|
  {
    if ops != [] {
      StepOk(s, ops[0]);
      HeldNext(s, ops, key);
      EvictedOnly(s, ops[0], key);
      CompletedSticks(Step(s, ops[0]), ops[1..], key);
    }
  }

  lemma HeldNext(s: Ledger, ops: seq<Op>, key: Key)
    requires ops != [] && HeldThroughout(s, ops, key)
    ensures key in Step(s, ops[0]).urls && HeldThroughout(Step(s, ops[0]), ops[1..], key)
  {
  }

  lemma EvictedOnly(s: Ledger, op: Op, key: Key)
    requires s.Ok() && key in s.completed && key in s.urls && key in Step(s, op).urls
    ensures key in Step(s, op).completed && Step(s, op).urls[key] == s.urls[key]
  {
  }

  /** Assigning again, with whatever backends, returns the backend already assigned. */
  lemma AssignSticks(s: Ledger, key: Key, urls: seq<string>, again: seq<string>)
    requires s.Ok() && Assign(s, key, urls).1.Some?
    ensures Assign(Assign(s, key, urls).0, key, again) == Assign(s, key, urls)
  {
  }

  /** How many keys were inserted after this one and are still held. */
  function Age(s: Ledger, i: nat): int {
    |s.order| - 1 - i
  }

  /** One step lets a key age by at most one, and evicts none that is younger than half the
      ledger. */
  lemma StepAges(s: Ledger, op: Op, i: nat) returns (j: nat)
    requires s.Ok() && i < |s.order| && Age(s, i) < MAX_ENTRIES / 2
    ensures j < |Step(s, op).order| && Step(s, op).order[j] == s.order[i]
    ensures Age(Step(s, op), j) <= Age(s, i) + if op.DoMark? || op.key in s.urls then 0 else 1
  {
    j := if op.DoAssign? && op.key !in s.urls && op.urls != [] && |s.order| >= MAX_ENTRIES
        then i - |s.order| / 2 else i;
  }

  /** How many operations of the run name a key that is not held at that moment. */
  function Insertions(s: Ledger, ops: seq<Op>): nat
    decreases |ops|
  {
    if ops == [] then 0
    else
      var op := ops[0];
      (if op.DoMark? || op.key in s.urls then 0 else 1) + Insertions(Step(s, op), ops[1..])
  }

  /** An assignment survives any run that inserts fewer than half the ledger's capacity. */
  lemma {:induction false} YoungSurvive(s: Ledger, ops: seq<Op>, i: nat) returns (j: nat)
    requires s.Ok() && i < |s.order|
    requires Age(s, i) + Insertions(s, ops) < MAX_ENTRIES / 2
    ensures j < |Run(s, ops).order| && Run(s, ops).order[j] == s.order[i]
    decreases |ops|
  {
    if ops == [] {
      j := i;
    } else {
      var k := StepAges(s, ops[0], i);
      StepOk(s, ops[0]);
      j := YoungSurvive(Step(s, ops[0]), ops[1..], k);
    }
  }

  // ----- what a failover stores -----

  /** A URL other than the current one stands at k, after the first place of the current one
      if it is in the list at all. */
  predicate Follows(urls: seq<string>, current: string, k: nat)
    requires k < |urls|
  {
    urls[k] != current && (current in urls ==> current in urls[..k])
  }

  /** k is the first such place. */
  ghost predicate FollowsFirst(urls: seq<string>, current: string, k: nat)
    requires k < |urls|
  {
    Follows(urls, current, k) && forall m :: 0 <= m < k ==> !Follows(urls, current, m)
  }

  /** A URL is returned exactly when such a place exists, and then that of the first. */
  lemma NextIs(urls: seq<string>, current: string)
    ensures NextUrl(urls, current).Some? <==> exists k :: 0 <= k < |urls| && Follows(urls, current, k)
    ensures forall k :: 0 <= k < |urls| && FollowsFirst(urls, current, k) ==> NextUrl(urls, current) == Some(urls[k])
  {
    var p := IndexOf(urls, current);
    forall k | 0 <= k < |urls| ensures Follows(urls, current, k) <==> k > p && urls[k] != current {
      if current in urls {
        assert k > p ==> urls[..k][p] == current;
        assert current in urls[..k] ==> exists m :: 0 <= m < k && urls[m] == current;
      }
    }
    forall k | 0 <= k < |urls| && FollowsFirst(urls, current, k) ensures NextUrl(urls, current) == Some(urls[k]) {
      FirstOtherAt(urls, p + 1, k, current);
    }
  }

  /** The two ledgers differ at most in the entry of one key. */
  ghost predicate SameBut(s: Ledger, t: Ledger, key: Key) {
    && t.completed == s.completed
    && (t.order == s.order || t.order == s.order + [key])
    && forall k :: k != key ==> (k in t.urls <==> k in s.urls) && (k in s.urls ==> t.urls[k] == s.urls[k])
  }

  /** The URL that a failover returns is the one that every later assignment of the shard
      returns; nothing else changes, and nothing at all when none is returned. None is returned
      exactly when the shard is done or no other URL follows the current one. */
  lemma FailoverStores(s: Ledger, key: Key, urls: seq<string>, current: string, again: seq<string>)
    ensures var (t, r) := Reassign(s, key, urls, current);
            && (r.None? <==> key in s.completed || forall k :: 0 <= k < |urls| ==> !Follows(urls, current, k))
            && (r.None? ==> t == s)
            && (r.Some? ==> Assign(t, key, again) == (t, r) && r.value in urls && r.value != current)
            && SameBut(s, t, key)
  {
    NextIs(urls, current);
  }

  /** The ledger after k failovers of one shard, each from the URL that the last one returned. */
  function FailOver(s: Ledger, key: Key, urls: seq<string>, url: string, k: nat): (Ledger, Option<string>) {
    if k == 0 then (s, Some(url))
    else
      var (t, prev) := FailOver(s, key, urls, url, k - 1);
      if prev.None? then (t, None) else Reassign(t, key, urls, prev.value)
  }

  /** As long as they succeed, the ledger holds the URL that the walk has come to, and no other
      entry has changed. */
  lemma {:induction false} WalkStores(s: Ledger, key: Key, urls: seq<string>, url: string, k: nat)
    requires key !in s.completed
    ensures var (t, r) := FailOver(s, key, urls, url, k);
            && r == Walk(urls, url, k)
            && (r.Some? && k > 0 ==> key in t.urls && t.urls[key] == r.value)
            && SameBut(s, t, key) && (t.order != s.order ==> key in t.urls)
  {
    if k > 0 {
      WalkStores(s, key, urls, url, k - 1);
      var (t, prev) := FailOver(s, key, urls, url, k - 1);
      if prev.Some? { FailoverStores(t, key, urls, prev.value, []); }
    }
  }

  // ----- enabled backends -----

  /** Backends later in the list come later. */
  lemma {:induction false} EnabledSplit(front: seq<Backend>, back: seq<Backend>)
    ensures EnabledUrls(front + back) == EnabledUrls(front) + EnabledUrls(back)
  {
    if front == [] {
      assert front + back == back;
    } else {
      var all, rest := front + back, front[1..];
      EnabledSplit(rest, back);
      assert all[0] == front[0] && all[1..] == rest + back;
      Assoc(if front[0].enabled then [front[0].baseUrl] else [], EnabledUrls(rest), EnabledUrls(back));
    }
  }

  lemma Assoc<T>(a: seq<T>, b: seq<T>, c: seq<T>)
    ensures a + (b + c) == a + b + c
  {
  }

  /** One backend counts exactly when it is enabled. */
  lemma EnabledOne(b: Backend)
    ensures EnabledUrls([b]) == if b.enabled then [b.baseUrl] else []
  {
    assert [b][1..] == [];
  }

  /** Some enabled backend has the URL. */
  ghost predicate IsEnabled(backends: seq<Backend>, url: string) {
    exists b :: b in backends && b.enabled && b.baseUrl == url
  }

  lemma {:induction false} EnabledOnly(backends: seq<Backend>)
    ensures forall u :: u in EnabledUrls(backends) <==> IsEnabled(backends, u)
    ensures EnabledUrls(backends) == [] <==> forall b :: b in backends ==> !b.enabled
  {
    if backends != [] {
      EnabledOnly(backends[1..]);
      assert forall b :: b in backends <==> b == backends[0] || b in backends[1..];
    }
  }

  // ----- failover -----

  /** k failovers in a row, each from the URL the last one returned. */
  function Walk(urls: seq<string>, url: string, k: nat): Option<string> {
    if k == 0 then Some(url)
    else
      var prev := Walk(urls, url, k - 1);
      if prev.None? then None else NextUrl(urls, prev.value)
  }

  /** Equal URLs stand next to each other; in particular, distinct URLs. */
  ghost predicate Grouped(urls: seq<string>) {
    GroupedTo(urls, |urls|)
  }

  ghost predicate GroupedTo(urls: seq<string>, n: nat)
    requires n <= |urls|
  {
    forall i, j, k :: 0 <= i < j < k < n && urls[i] == urls[k] ==> urls[j] == urls[i]
  }

  lemma IndexIsFirst(urls: seq<string>, i: nat)
    requires i < |urls|
    ensures 0 <= IndexOf(urls, urls[i]) <= i
  {
    assert urls[i] in urls;
  }

  lemma {:induction false} FirstOtherAt(urls: seq<string>, i: nat, k: nat, current: string)
    requires i <= k < |urls| && urls[k] != current
    requires forall m :: i <= m < k ==> urls[m] == current
    ensures FirstOther(urls, i, current) == Some(urls[k])
    decreases k - i
  {
    if i < k { FirstOtherAt(urls, i + 1, k, current); }
  }

  /** Among grouped URLs a failover moves strictly forward. */
  lemma NextForward(urls: seq<string>, current: string)
    requires Grouped(urls) && current in urls && NextUrl(urls, current).Some?
    ensures NextUrl(urls, current).value in urls
    ensures IndexOf(urls, NextUrl(urls, current).value) > IndexOf(urls, current)
  {
    var next := NextUrl(urls, current).value;
    var p := IndexOf(urls, current);
    var k :| p + 1 <= k < |urls| && urls[k] == next && next != current;
    var q := IndexOf(urls, next);
    assert q != p;
  }

  /** ... so no walk makes as many moves as there are URLs. */
  lemma {:induction false} WalkAdvances(urls: seq<string>, url: string, k: nat)
    requires Grouped(urls) && url in urls && Walk(urls, url, k).Some?
    ensures Walk(urls, url, k).value in urls
    ensures IndexOf(urls, Walk(urls, url, k).value) >= IndexOf(urls, url) + k
  {
    if k > 0 {
      WalkAdvances(urls, url, k - 1);
      NextForward(urls, Walk(urls, url, k - 1).value);
    }
  }

  /** Failovers lead from each place up to p to the next one. */
  ghost predicate StepsTo(urls: seq<string>, p: nat)
    requires p < |urls|
  {
    p == 0 || (StepsTo(urls, p - 1) && (urls[p] == urls[p - 1] || NextUrl(urls, urls[p - 1]) == Some(urls[p])))
  }

  /** Where they do, walks follow the list place by place. */
  lemma {:induction false} WalkReaches(urls: seq<string>, first: nat, p: nat) returns (k: nat)
    requires first <= p < |urls| && StepsTo(urls, p)
    ensures Walk(urls, urls[first], k) == Some(urls[p])
    decreases p
  {
    if p == first {
      k := 0;
    } else {
      k := WalkReaches(urls, first, p - 1);
      if urls[p] != urls[p - 1] {
        WalkOn(urls, urls[first], k, urls[p - 1], urls[p]);
        k := k + 1;
      }
    }
  }

  lemma {:induction false} GroupedSteps(urls: seq<string>, p: nat)
    requires p < |urls| && GroupedTo(urls, p)
    ensures StepsTo(urls, p)
  {
    if p > 0 {
      GroupedSteps(urls, p - 1);
      if urls[p] != urls[p - 1] { NextPlace(urls, p); }
    }
  }

  lemma WalkOn(urls: seq<string>, url: string, k: nat, here: string, next: string)
    requires Walk(urls, url, k) == Some(here) && NextUrl(urls, here) == Some(next)
    ensures Walk(urls, url, k + 1) == Some(next)
  {
  }

  /** From the last URL of a grouped stretch, a failover takes the URL that follows it. */
  lemma NextPlace(urls: seq<string>, p: nat)
    requires 0 < p < |urls| && GroupedTo(urls, p) && urls[p] != urls[p - 1]
    ensures NextUrl(urls, urls[p - 1]) == Some(urls[p])
  {
    IndexIsFirst(urls, p - 1);
    var f := IndexOf(urls, urls[p - 1]);
    assert forall m :: f + 1 <= m < p ==> urls[m] == urls[p - 1];
    FirstOtherAt(urls, f + 1, p, urls[p - 1]);
  }

  /** Every failover walk ends, within fewer moves than there are URLs, exactly when equal
      URLs stand together; otherwise some walk returns to where it began. */
  lemma WalksEndIff(urls: seq<string>)
    ensures Grouped(urls) ==> forall u :: u in urls ==> Walk(urls, u, |urls|).None?
    ensures !Grouped(urls) ==> exists u, k: nat :: u in urls && k > 0 && Walk(urls, u, k) == Some(u)
  {
    if Grouped(urls) {
      forall u | u in urls ensures Walk(urls, u, |urls|).None? { WalkEnds(urls, u); }
    } else {
      var u, k := WalkReturns(urls);
    }
  }

  lemma WalkEnds(urls: seq<string>, url: string)
    requires Grouped(urls) && url in urls
    ensures Walk(urls, url, |urls|).None?
  {
    if Walk(urls, url, |urls|).Some? { WalkAdvances(urls, url, |urls|); }
  }

  /** Where a URL comes back, failovers lead from its first place to the second. */
  lemma ReturnPlace(urls: seq<string>) returns (f: nat, p: nat)
    requires !Grouped(urls)
    ensures f < p < |urls| && urls[f] == urls[p]
    ensures StepsTo(urls, p - 1) && NextUrl(urls, urls[p - 1]) == Some(urls[p])
  {
    p := Ungrouped(urls);
    f := IndexOf(urls, urls[p]);
    GroupedSteps(urls, p - 1);
    NextPlace(urls, p);
  }

  lemma WalkReturns(urls: seq<string>) returns (url: string, k: nat)
    requires !Grouped(urls)
    ensures url in urls && k > 0 && Walk(urls, url, k) == Some(url)
  {
    var f, p := ReturnPlace(urls);
    k := WalkReaches(urls, f, p - 1);
    WalkOn(urls, urls[f], k, urls[p - 1], urls[p]);
    url, k := urls[p], k + 1;
  }

  /** The first place where a URL comes back after another one. */
  lemma Ungrouped(urls: seq<string>) returns (p: nat)
    requires !Grouped(urls)
    ensures 0 < p < |urls| && GroupedTo(urls, p) && urls[p] != urls[p - 1]
    ensures IndexOf(urls, urls[p]) <= p - 1
  {
    p := 0;
    while p < |urls| && GroupedTo(urls, p + 1)
      invariant 0 <= p <= |urls| && GroupedTo(urls, p)
    {
      p := p + 1;
    }
    var i := BreaksAt(urls, p);
    IndexIsFirst(urls, i);
  }

  /** Where grouping breaks, the URL stood before, but not right before. */
  lemma BreaksAt(urls: seq<string>, p: nat) returns (i: nat)
    requires p < |urls| && GroupedTo(urls, p) && !GroupedTo(urls, p + 1)
    ensures i < p && urls[i] == urls[p] && urls[p - 1] != urls[p]
  {
    var h, j, k :| 0 <= h < j < k < p + 1 && urls[h] == urls[k] && urls[j] != urls[h];
    assert k == p;
    i := h;
    assert j == p - 1 || urls[p - 1] != urls[h];
  }

  // ----- spreading a batch -----

  /** Of k shards of a batch assigned one after the other, from index a on, how many are
      sent to the given URL. */
  function SentTo(s: Ledger, batch: string, a: int, k: nat, urls: seq<string>, url: string): nat
    decreases k
  {
    if k == 0 then 0
    else
      var (next, sent) := Assign(s, (batch, a), urls);
      (if sent == Some(url) then 1 else 0) + SentTo(next, batch, a + 1, k - 1, urls, url)
  }

  /** How many of the k indices from a on are r modulo m. */
  function CountResidue(a: int, k: nat, m: nat, r: nat): nat
    requires m > 0
  {
    if k == 0 then 0 else CountResidue(a, k - 1, m, r) + if (a + k - 1) % m == r then 1 else 0
  }

  lemma MulBound(m: nat, d: int)
    ensures d >= 1 ==> m * d >= m
    ensures d <= -1 ==> m * d + m <= 0
  {
  }

  lemma ModUnique(y: int, m: nat, q: int, r: nat)
    requires r < m && y == m * q + r
    ensures y % m == r && y / m == q
  {
    MulBound(m, q - y / m);
    assert m * (q - y / m) == m * q - m * (y / m);
  }

  /** The k-th index after a is r modulo m exactly when k is r - a modulo m. */
  lemma SameResidue(a: int, k: nat, m: nat, r: nat)
    requires r < m
    ensures (a + k) % m == r <==> (r - a) % m == k % m
  {
    if (a + k) % m == r {
      var q := (a + k) / m;
      ModUnique(r - a, m, k / m - q, k % m);
    } else if (r - a) % m == k % m {
      ModUnique(a + k, m, k / m - (r - a) / m, r);
    }
  }

  lemma NextQuotient(k: nat, m: nat)
    requires m > 0
    ensures k % m + 1 < m ==> (k + 1) / m == k / m && (k + 1) % m == k % m + 1
    ensures k % m + 1 == m ==> (k + 1) / m == k / m + 1 && (k + 1) % m == 0
  {
    if k % m + 1 < m {
      ModUnique(k + 1, m, k / m, k % m + 1);
    } else {
      ModUnique(k + 1, m, k / m + 1, 0);
    }
  }

  lemma {:induction false} ResidueCount(a: int, k: nat, m: nat, r: nat)
    requires r < m
    ensures CountResidue(a, k, m, r) == k / m + if (r - a) % m < k % m then 1 else 0
    decreases k
  {
    if k > 0 {
      ResidueCount(a, k - 1, m, r);
      SameResidue(a, k - 1, m, r);
      NextQuotient(k - 1, m);
    }
  }

  /** How many of the k indices from a on round robin sends to url. */
  function Turns(urls: seq<string>, a: int, k: nat, url: string): nat
    requires urls != []
  {
    if k == 0 then 0 else Turns(urls, a, k - 1, url) + if RoundRobin(urls, a + k - 1) == url then 1 else 0
  }

  lemma {:induction false} TurnsFront(urls: seq<string>, a: int, k: nat, url: string)
    requires urls != [] && k > 0
    ensures Turns(urls, a, k, url) == (if RoundRobin(urls, a) == url then 1 else 0) + Turns(urls, a + 1, k - 1, url)
  {
    if k > 1 { TurnsFront(urls, a, k - 1, url); }
  }

  lemma {:induction false} TurnsByResidue(urls: seq<string>, a: int, k: nat, r: nat)
    requires r < |urls| && TakesTurns(urls, r)
    ensures Turns(urls, a, k, urls[r]) == CountResidue(a, k, |urls|, r)
  {
    if k > 0 { TurnsByResidue(urls, a, k - 1, r); }
  }

  /** The URL at r is the one for the indices that are r modulo the number of URLs. */
  ghost predicate TakesTurns(urls: seq<string>, r: nat)
    requires r < |urls|
  {
    forall i :: RoundRobin(urls, i) == urls[r] <==> i % |urls| == r
  }

  /** None of the k shards from a on is held. */
  predicate Unheld(s: Ledger, batch: string, a: int, k: nat)
    decreases k
  {
    k == 0 || ((batch, a) !in s.urls && Unheld(s, batch, a + 1, k - 1))
  }

  lemma {:induction false} UnheldAll(s: Ledger, batch: string, a: int, k: nat)
    requires forall i :: a <= i < a + k ==> (batch, i) !in s.urls
    ensures Unheld(s, batch, a, k)
    decreases k
  {
    if k > 0 { UnheldAll(s, batch, a + 1, k - 1); }
  }

  /** Assigning one shard inserts no other. */
  lemma {:induction false} StaysUnheld(s: Ledger, batch: string, i: int, urls: seq<string>, a: int, k: nat)
    requires i < a && Unheld(s, batch, a, k)
    ensures Unheld(Assign(s, (batch, i), urls).0, batch, a, k)
    decreases k
  {
    if k > 0 { StaysUnheld(s, batch, i, urls, a + 1, k - 1); }
  }

  lemma SentFirst(s: Ledger, batch: string, a: int, k: nat, urls: seq<string>, url: string)
    requires k > 0 && urls != [] && (batch, a) !in s.urls
    requires SentTo(Assign(s, (batch, a), urls).0, batch, a + 1, k - 1, urls, url) == Turns(urls, a + 1, k - 1, url)
    ensures SentTo(s, batch, a, k, urls, url) == Turns(urls, a, k, url)
  {
    TurnsFront(urls, a, k, url);
  }

  /** Fresh shards are sent where round robin says. */
  lemma {:induction false} SentInTurn(s: Ledger, batch: string, a: int, k: nat, urls: seq<string>, url: string)
    requires urls != [] && Unheld(s, batch, a, k)
    ensures SentTo(s, batch, a, k, urls, url) == Turns(urls, a, k, url)
    decreases k
  {
    if k > 0 {
      StaysUnheld(s, batch, a, urls, a + 1, k - 1);
      SentInTurn(Assign(s, (batch, a), urls).0, batch, a + 1, k - 1, urls, url);
      SentFirst(s, batch, a, k, urls, url);
    }
  }

  /** Fresh consecutive shards of one batch spread evenly: each of m distinct backends gets
      k / m of the k shards, rounded down or up. */
  lemma EvenSpread(s: Ledger, batch: string, a: int, k: nat, urls: seq<string>, r: nat)
    requires r < |urls| && forall i, j :: 0 <= i < j < |urls| ==> urls[i] != urls[j]
    requires forall i :: a <= i < a + k ==> (batch, i) !in s.urls
    ensures k / |urls| <= SentTo(s, batch, a, k, urls, urls[r]) <= k / |urls| + 1
    ensures k % |urls| == 0 ==> SentTo(s, batch, a, k, urls, urls[r]) == k / |urls|
  {
    UnheldAll(s, batch, a, k);
    SentInTurn(s, batch, a, k, urls, urls[r]);
    TurnsByResidue(urls, a, k, r);
    ResidueCount(a, k, |urls|, r);
  }
}

module ShardLedgers {
  import opened Wrappers
  import opened ShardSteps

  class BatchRequestLedger {
    /** The assignments dictionary with its insertion order. */
    var order: seq<Key>
    var assignments: map<Key, string>
    var completed: set<Key>

    ghost function View(): Ledger
      reads this
    {
      Ledger(order, assignments, completed)
    }

    ghost predicate Valid()
      reads this
    {
      View().Ok()
    }

    constructor ()
      ensures Valid() && View() == EMPTY
    {
      order, assignments, completed := [], map[], {};
    }

    method EvictIfFull()
      requires Valid()
      modifies this
      ensures Valid() && View() == ShardSteps.EvictIfFull(old(View()))
    {
      if |order| < MAX_ENTRIES {
        return;
      }
      DropOk(View(), |order| / 2);
      Drop(|order| / 2);
    }

    /** The loop of EvictIfFull: pop the oldest keys, and forget that they were done. */
    method Drop(n: nat)
      requires n <= |order|
      modifies this
      ensures View() == DropOldest(old(View()), n)
    {
      var oldest := order[..n];
      ghost var s := View();
      for i := 0 to n
        invariant oldest == s.order[..n] && View() == DropOldest(s, i)
      {
        var key := oldest[i];
        DropOneMore(s, i);
        order := order[1..];
        assignments := assignments - {key};
        completed := completed - {key};
      }
    }

    method Put(key: Key, url: string)
      requires Valid()
      modifies this
      ensures Valid() && View() == ShardSteps.Put(old(View()), key, url)
    {
      if key !in assignments {
        order := order + [key];
      }
      assignments := assignments[key := url];
    }

    method Assign(batchId: string, index: int, backends: seq<Backend>) returns (url: Option<string>)
      requires Valid()
      modifies this
      ensures Valid() && (View(), url) == ShardSteps.Assign(old(View()), (batchId, index), EnabledUrls(backends))
      ensures old((batchId, index) !in assignments) && url.Some? ==> IsEnabled(backends, url.value)
      ensures old((batchId, index) !in assignments) ==> (url.None? <==> forall b :: b in backends ==> !b.enabled)
    {
      EnabledOnly(backends);
      var key := (batchId, index);
      if key in assignments {
        return Some(assignments[key]);
      }
      var urls := EnabledUrls(backends);
      if urls == [] {
        return None;
      }
      var u := RoundRobin(urls, index);
      EvictIfFull();
      Put(key, u);
      return Some(u);
    }

    method ReassignFailed(batchId: string, index: int, backends: seq<Backend>, currentUrl: string)
      returns (url: Option<string>)
      requires Valid()
      modifies this
      ensures Valid() && (View(), url) ==
          ShardSteps.Reassign(old(View()), (batchId, index), EnabledUrls(backends), currentUrl)
      ensures url.Some? ==> url.value != currentUrl && IsEnabled(backends, url.value)
      ensures url.Some? ==> (batchId, index) in assignments && assignments[(batchId, index)] == url.value
      ensures url.None? ==> View() == old(View())
      ensures SameBut(old(View()), View(), (batchId, index))
    {
      EnabledOnly(backends);
      FailoverStores(View(), (batchId, index), EnabledUrls(backends), currentUrl, []);
      if (batchId, index) in completed {
        return None;
      }
      var urls := EnabledUrls(backends);
      if urls == [] {
        return None;
      }
      var pos := IndexOf(urls, currentUrl);
      for i := pos + 1 to |urls|
        invariant View() == old(View())
        invariant FirstOther(urls, i, currentUrl) == NextUrl(urls, currentUrl)
      {
        if urls[i] != currentUrl {
          Put((batchId, index), urls[i]);
          return Some(urls[i]);
        }
      }
      return None;
    }

    method MarkDone(batchId: string, index: int)
      requires Valid()
      modifies this`completed
      ensures Valid() && View() == ShardSteps.MarkDone(old(View()), (batchId, index))
    {
      completed := completed + {(batchId, index)};
    }
  }
}
