/** The call-edge part of `analyze`: edges between functions, per-cluster counts, the
    weighted cluster graph, and its cycles. */
module ModuleGraph {
  import opened Digraph
  import opened Ordering
  import opened Sccs

  /** Function name -> callee name -> line numbers of the call sites. */
  type Calls = map<string, map<string, seq<int>>>

  datatype Edge = Edge(src: string, dst: string, lines: seq<int>, srcCluster: string, dstCluster: string)

  datatype Metric = Metric(internal: nat, outgoing: nat, incoming: nat)

  datatype Report = Report(
    edges: seq<Edge>,
    metrics: map<string, Metric>,
    weights: map<(string, string), nat>,
    cycles: seq<seq<string>>,
    twoCycles: set<(string, string)>)

  function ClusterOf(clusters: map<string, string>, name: string): string {
    if name in clusters then clusters[name] else "UNMAPPED"
  }

  /** The sum of w over the edges that satisfy p. */
  function Weigh(es: seq<Edge>, p: Edge -> bool, w: Edge -> nat): nat {
    if es == [] then 0
    else
      var n := |es| - 1;
      Weigh(es[..n], p, w) + if p(es[n]) then w(es[n]) else 0
  }

  const ONE: Edge -> nat := (e: Edge) => 1
  const SITES: Edge -> nat := (e: Edge) => |e.lines|
  const ANYTHING: Edge -> bool := (e: Edge) => true
  const CROSS: Edge -> bool := (e: Edge) => e.srcCluster != e.dstCluster

  function Within(c: string): Edge -> bool { (e: Edge) => e.srcCluster == c && e.dstCluster == c }
  function OutOf(c: string): Edge -> bool { (e: Edge) => e.srcCluster == c && e.dstCluster != c }
  function Into(c: string): Edge -> bool { (e: Edge) => e.dstCluster == c && e.srcCluster != c }
  function Between(s: string, d: string): Edge -> bool {
    (e: Edge) => e.srcCluster != e.dstCluster && e.srcCluster == s && e.dstCluster == d
  }

  /** From s, the edges between s and each d. */
  function Leg(s: string): string -> (Edge -> bool) { (d: string) => Between(s, d) }

  /** The sum over a list of cluster names c of the weight of the edges sel(c) selects. */
  function SumOver(es: seq<Edge>, names: seq<string>, sel: string -> (Edge -> bool), w: Edge -> nat): nat {
    if names == [] then 0 else Weigh(es, sel(names[0]), w) + SumOver(es, names[1..], sel, w)
  }

  /** The sum of the cluster graph's weights out of s, and over all sources. */
  function SumRow(weights: map<(string, string), nat>, s: string, names: seq<string>): nat {
    if names == [] then 0
    else (if (s, names[0]) in weights then weights[(s, names[0])] else 0) + SumRow(weights, s, names[1..])
  }

  function SumTable(weights: map<(string, string), nat>, sources: seq<string>, names: seq<string>): nat {
    if sources == [] then 0 else SumRow(weights, sources[0], names) + SumTable(weights, sources[1..], names)
  }

  // ----- one edge list, any weight -----

  lemma {:induction false} WeighSplit(es: seq<Edge>, p: Edge -> bool, q: Edge -> bool, r: Edge -> bool, w: Edge -> nat)
    requires forall e :: e in es ==> (p(e) <==> q(e) || r(e)) && !(q(e) && r(e))
    ensures Weigh(es, p, w) == Weigh(es, q, w) + Weigh(es, r, w)
  {
    if es != [] {
      WeighSplit(es[..|es| - 1], p, q, r, w);
    }
  }

  lemma {:induction false} WeighSame(es: seq<Edge>, p: Edge -> bool, q: Edge -> bool, w: Edge -> nat)
    requires forall e :: e in es ==> (p(e) <==> q(e))
    ensures Weigh(es, p, w) == Weigh(es, q, w)
  {
    if es != [] {
      WeighSame(es[..|es| - 1], p, q, w);
    }
  }

  lemma {:induction false} WeighNone(es: seq<Edge>, p: Edge -> bool, w: Edge -> nat)
    requires forall e :: e in es ==> !p(e)
    ensures Weigh(es, p, w) == 0
  {
    if es != [] {
      WeighNone(es[..|es| - 1], p, w);
    }
  }

  lemma {:induction false} WeighAll(es: seq<Edge>)
    ensures Weigh(es, ANYTHING, ONE) == |es|
  {
    if es != [] {
      WeighAll(es[..|es| - 1]);
    }
  }

  function Keyed(p: Edge -> bool, key: Edge -> string, names: seq<string>): Edge -> bool {
    (e: Edge) => p(e) && key(e) in names
  }

  /** Splitting by a key with distinct names: the per-name sums add up. */
  lemma {:induction false} Partition(es: seq<Edge>, names: seq<string>, key: Edge -> string,
                                     sel: string -> (Edge -> bool), p: Edge -> bool, w: Edge -> nat)
    requires forall i, j :: 0 <= i < j < |names| ==> names[i] != names[j]
    requires forall c, e :: sel(c)(e) <==> p(e) && key(e) == c
    ensures SumOver(es, names, sel, w) == Weigh(es, Keyed(p, key, names), w)
  {
    if names == [] {
      WeighNone(es, Keyed(p, key, names), w);
    } else {
      var c, rest := names[0], names[1..];
      Partition(es, rest, key, sel, p, w);
      assert forall k :: k in names <==> k == c || k in rest;
      assert c !in rest;
      WeighSplit(es, Keyed(p, key, names), sel(c), Keyed(p, key, rest), w);
    }
  }

  /** ... to the sum over p, when every edge's key is among the names. */
  lemma SumByKey(es: seq<Edge>, names: seq<string>, key: Edge -> string, sel: string -> (Edge -> bool),
                 p: Edge -> bool, w: Edge -> nat)
    requires forall i, j :: 0 <= i < j < |names| ==> names[i] != names[j]
    requires forall e :: e in es ==> key(e) in names
    requires forall c, e :: sel(c)(e) <==> p(e) && key(e) == c
    ensures SumOver(es, names, sel, w) == Weigh(es, p, w)
  {
    Partition(es, names, key, sel, p, w);
    WeighSame(es, p, Keyed(p, key, names), w);
  }

  ghost predicate Clustered(es: seq<Edge>, names: seq<string>) {
    && (forall i, j :: 0 <= i < j < |names| ==> names[i] != names[j])
    && (forall e :: e in es ==> e.srcCluster in names && e.dstCluster in names)
  }

  const SRC_CLUSTER: Edge -> string := (e: Edge) => e.srcCluster
  const DST_CLUSTER: Edge -> string := (e: Edge) => e.dstCluster
  const INNER: Edge -> bool := (e: Edge) => e.srcCluster == e.dstCluster

  /** Edge accounting: every edge is internal to one cluster or leaves one cluster, and
      what leaves clusters is what enters them. */
  lemma EdgesConserved(es: seq<Edge>, names: seq<string>)
    requires Clustered(es, names)
    ensures SumOver(es, names, Within, ONE) + SumOver(es, names, OutOf, ONE) == |es|
    ensures SumOver(es, names, OutOf, ONE) == SumOver(es, names, Into, ONE) == Weigh(es, CROSS, ONE)
  {
    SumByKey(es, names, SRC_CLUSTER, Within, INNER, ONE);
    SumByKey(es, names, SRC_CLUSTER, OutOf, CROSS, ONE);
    SumByKey(es, names, DST_CLUSTER, Into, CROSS, ONE);
    WeighSplit(es, ANYTHING, INNER, CROSS, ONE);
    WeighAll(es);
  }

  /** weights holds the pairs of distinct clusters joined by an edge of es, with the number
      of call sites behind each. */
  ghost predicate AreWeights(es: seq<Edge>, weights: map<(string, string), nat>) {
    && (forall s, d :: (s, d) in weights <==> exists e :: e in es && Between(s, d)(e))
    && (forall s, d :: (s, d) in weights ==> weights[(s, d)] == Weigh(es, Between(s, d), SITES))
  }

  lemma {:induction false} RowOut(es: seq<Edge>, weights: map<(string, string), nat>, s: string, names: seq<string>)
    requires AreWeights(es, weights)
    ensures SumRow(weights, s, names) == SumOver(es, names, Leg(s), SITES)
  {
    if names != [] {
      RowOut(es, weights, s, names[1..]);
      if (s, names[0]) !in weights {
        WeighNone(es, Between(s, names[0]), SITES);
      }
    }
  }

  lemma {:induction false} TableOut(es: seq<Edge>, weights: map<(string, string), nat>, sources: seq<string>,
                                    names: seq<string>)
    requires Clustered(es, names) && AreWeights(es, weights)
    ensures SumTable(weights, sources, names) == SumOver(es, sources, OutOf, SITES)
  {
    if sources != [] {
      RowOut(es, weights, sources[0], names);
      SumByKey(es, names, DST_CLUSTER, Leg(sources[0]), OutOf(sources[0]), SITES);
      TableOut(es, weights, sources[1..], names);
    }
  }

  /** The weights of the cluster graph add up to the call sites that cross clusters. */
  lemma WeightsConserved(es: seq<Edge>, weights: map<(string, string), nat>, names: seq<string>)
    requires Clustered(es, names) && AreWeights(es, weights)
    ensures SumTable(weights, names, names) == Weigh(es, CROSS, SITES)
  {
    TableOut(es, weights, names, names);
    SumByKey(es, names, SRC_CLUSTER, OutOf, CROSS, SITES);
  }

  // ----- analyze -----

  /** e is the call from e.src to e.dst. */
  ghost predicate IsCall(nodes: Calls, clusters: map<string, string>, e: Edge) {
    && e.src in nodes && e.dst in nodes[e.src] && e.dst in nodes
    && e.lines == nodes[e.src][e.dst]
    && e.srcCluster == ClusterOf(clusters, e.src) && e.dstCluster == ClusterOf(clusters, e.dst)
  }

  ghost predicate HasCall(es: seq<Edge>, s: string, d: string) {
    exists e :: e in es && e.src == s && e.dst == d
  }

  /** es lists the calls out of the given sources, each resolvable one once. */
  ghost predicate AreCalls(nodes: Calls, clusters: map<string, string>, sources: seq<string>, es: seq<Edge>) {
    && (forall e :: e in es ==> IsCall(nodes, clusters, e) && e.src in sources)
    && (forall s, d :: s in sources && s in nodes && d in nodes[s] && d in nodes ==> HasCall(es, s, d))
    && (forall i, j :: 0 <= i < j < |es| ==> es[i].src != es[j].src || es[i].dst != es[j].dst)
  }

  /** es lists the calls from name to the given targets, each resolvable one once. */
  ghost predicate AreCallsTo(nodes: Calls, clusters: map<string, string>, name: string, targets: seq<string>,
                             es: seq<Edge>) {
    && (forall e :: e in es ==> IsCall(nodes, clusters, e) && e.src == name && e.dst in targets)
    && (forall d :: d in targets && d in nodes ==> HasCall(es, name, d))
    && (forall i, j :: 0 <= i < j < |es| ==> es[i].dst != es[j].dst)
  }

  lemma CallsToAppend(nodes: Calls, clusters: map<string, string>, name: string, targets: seq<string>, d: string,
                      es: seq<Edge>, e: Edge)
    requires AreCallsTo(nodes, clusters, name, targets, es)
    requires IsCall(nodes, clusters, e) && e.src == name && e.dst == d && d !in targets
    ensures AreCallsTo(nodes, clusters, name, targets + [d], es + [e])
  {
    forall k | k in targets + [d] && k in nodes ensures HasCall(es + [e], name, k) {
      if k == d {
        assert e in es + [e];
      } else {
        var f :| f in es && f.src == name && f.dst == k;
        assert f in es + [e];
      }
    }
    forall i, j | 0 <= i < j < |es + [e]| ensures (es + [e])[i].dst != (es + [e])[j].dst {
      assert es == (es + [e])[..|es|] && (es + [e])[i] in es;
    }
  }

  lemma CallsToSkip(nodes: Calls, clusters: map<string, string>, name: string, targets: seq<string>, d: string,
                    es: seq<Edge>)
    requires AreCallsTo(nodes, clusters, name, targets, es) && d !in nodes
    ensures AreCallsTo(nodes, clusters, name, targets + [d], es)
  {
    forall k | k in targets + [d] && k in nodes ensures HasCall(es, name, k) {
      assert k in targets;
    }
  }

  /** The inner loop: the calls out of one function. */
  method CallsFrom(nodes: Calls, clusters: map<string, string>, name: string) returns (es: seq<Edge>)
    requires name in nodes
    ensures AreCalls(nodes, clusters, [name], es)
  {
    es := [];
    var targets := SortStrings(nodes[name].Keys);
    for j := 0 to |targets|
      invariant AreCallsTo(nodes, clusters, name, targets[..j], es)
    {
      var target := targets[j];
      assert target in Range(targets);
      Snoc(targets, j);
      NewTarget(targets, j);
      if target in nodes {
        var e := Edge(name, target, nodes[name][target], ClusterOf(clusters, name), ClusterOf(clusters, target));
        CallsToAppend(nodes, clusters, name, targets[..j], target, es, e);
        es := es + [e];
      } else {
        CallsToSkip(nodes, clusters, name, targets[..j], target, es);
      }
    }
    assert targets[..|targets|] == targets;
    CallsToDone(nodes, clusters, name, targets, es);
  }

  lemma CallsToDone(nodes: Calls, clusters: map<string, string>, name: string, targets: seq<string>, es: seq<Edge>)
    requires name in nodes && Range(targets) == nodes[name].Keys
    requires AreCallsTo(nodes, clusters, name, targets, es)
    ensures AreCalls(nodes, clusters, [name], es)
  {
    assert forall d :: d in nodes[name] ==> d in Range(targets);
  }

  lemma NewTarget(targets: seq<string>, j: nat)
    requires Ascending(StringLe, targets) && j < |targets|
    ensures targets[j] !in targets[..j]
  {
  }

  lemma Snoc<T>(s: seq<T>, i: nat)
    requires i < |s|
    ensures s[..i + 1] == s[..i] + [s[i]]
  {
  }

  method CallEdges(nodes: Calls, clusters: map<string, string>, names: seq<string>) returns (es: seq<Edge>)
    requires Range(names) == nodes.Keys
    requires forall i, j :: 0 <= i < j < |names| ==> names[i] != names[j]
    ensures AreCalls(nodes, clusters, names, es)
  {
    es := [];
    for i := 0 to |names|
      invariant AreCalls(nodes, clusters, names[..i], es)
    {
      assert names[i] in Range(names);
      var more := CallsFrom(nodes, clusters, names[i]);
      assert names[..i + 1] == names[..i] + [names[i]];
      CallsAppend(nodes, clusters, names[..i], names[i], es, more);
      es := es + more;
    }
    assert names[..|names|] == names;
  }

  lemma CallsAppend(nodes: Calls, clusters: map<string, string>, sources: seq<string>, name: string, es: seq<Edge>,
                    more: seq<Edge>)
    requires AreCalls(nodes, clusters, sources, es) && AreCalls(nodes, clusters, [name], more)
    requires name !in sources
    ensures AreCalls(nodes, clusters, sources + [name], es + more)
  {
    forall s, d | s in sources + [name] && s in nodes && d in nodes[s] && d in nodes
      ensures HasCall(es + more, s, d)
    {
      if s in sources {
        var e :| e in es && e.src == s && e.dst == d;
        assert e in es + more;
      } else {
        assert HasCall(more, s, d);
        var e :| e in more && e.src == s && e.dst == d;
        assert e in es + more;
      }
    }
    var all := es + more;
    forall i, j | 0 <= i < j < |all| ensures all[i].src != all[j].src || all[i].dst != all[j].dst {
      if i < |es| <= j {
        assert all[i] in es && all[j] in more;
      }
    }
  }

  /** The places of the edges that satisfy p. */
  ghost function Having(es: seq<Edge>, p: Edge -> bool): set<int> {
    set i | 0 <= i < |es| && p(es[i])
  }

  lemma HavingNext(es: seq<Edge>, p: Edge -> bool, n: nat)
    requires n < |es|
    ensures |Having(es[..n + 1], p)| == |Having(es[..n], p)| + if p(es[n]) then 1 else 0
  {
    var a, b := Having(es[..n], p), Having(es[..n + 1], p);
    assert b == if p(es[n]) then a + {n} else a;
  }

  lemma {:induction false} WeighCounts(es: seq<Edge>, p: Edge -> bool)
    ensures Weigh(es, p, ONE) == |Having(es, p)|
  {
    if es != [] {
      var n := |es| - 1;
      WeighCounts(es[..n], p);
      HavingNext(es, p, n);
      assert es[..n + 1] == es;
    }
  }

  ghost function MetricOf(es: seq<Edge>, c: string): Metric {
    Metric(|Having(es, Within(c))|, |Having(es, OutOf(c))|, |Having(es, Into(c))|)
  }

  ghost predicate AreMetrics(es: seq<Edge>, names: seq<string>, metrics: map<string, Metric>) {
    metrics.Keys == Range(names) && forall c :: c in names ==> metrics[c] == MetricOf(es, c)
  }

  /** The three sums for one cluster. */
  method CountCalls(es: seq<Edge>, c: string) returns (m: Metric)
    ensures m == MetricOf(es, c)
  {
    var internal, outgoing, incoming := 0, 0, 0;
    for i := 0 to |es|
      invariant Metric(internal, outgoing, incoming) == MetricOf(es[..i], c)
    {
      var e := es[i];
      HavingNext(es, Within(c), i);
      HavingNext(es, OutOf(c), i);
      HavingNext(es, Into(c), i);
      if e.srcCluster == c && e.dstCluster == c {
        internal := internal + 1;
      }
      if e.srcCluster == c && e.dstCluster != c {
        outgoing := outgoing + 1;
      }
      if e.dstCluster == c && e.srcCluster != c {
        incoming := incoming + 1;
      }
    }
    assert es[..|es|] == es;
    m := Metric(internal, outgoing, incoming);
  }

  /** The call counts of each cluster. */
  method Metrics(es: seq<Edge>, names: seq<string>) returns (metrics: map<string, Metric>)
    ensures AreMetrics(es, names, metrics)
  {
    metrics := map[];
    for i := 0 to |names|
      invariant AreMetrics(es, names[..i], metrics)
    {
      var m := CountCalls(es, names[i]);
      assert names[..i + 1] == names[..i] + [names[i]];
      metrics := metrics[names[i] := m];
    }
    assert names[..|names|] == names;
  }

  function SumInternal(metrics: map<string, Metric>, names: seq<string>): nat
    requires forall c :: c in names ==> c in metrics
  {
    if names == [] then 0 else metrics[names[0]].internal + SumInternal(metrics, names[1..])
  }

  function SumOutgoing(metrics: map<string, Metric>, names: seq<string>): nat
    requires forall c :: c in names ==> c in metrics
  {
    if names == [] then 0 else metrics[names[0]].outgoing + SumOutgoing(metrics, names[1..])
  }

  function SumIncoming(metrics: map<string, Metric>, names: seq<string>): nat
    requires forall c :: c in names ==> c in metrics
  {
    if names == [] then 0 else metrics[names[0]].incoming + SumIncoming(metrics, names[1..])
  }

  lemma {:induction false} SumsAre(es: seq<Edge>, metrics: map<string, Metric>, names: seq<string>)
    requires forall c :: c in names ==> c in metrics && metrics[c] == MetricOf(es, c)
    ensures SumInternal(metrics, names) == SumOver(es, names, Within, ONE)
    ensures SumOutgoing(metrics, names) == SumOver(es, names, OutOf, ONE)
    ensures SumIncoming(metrics, names) == SumOver(es, names, Into, ONE)
  {
    if names != [] {
      var c := names[0];
      assert c in names && metrics[c] == MetricOf(es, c);
      WeighCounts(es, Within(c));
      WeighCounts(es, OutOf(c));
      WeighCounts(es, Into(c));
      SumsAre(es, metrics, names[1..]);
    }
  }

  /** The reported numbers account for every edge: each is internal to one cluster or leaves
      one, and what leaves clusters is what enters them. */
  lemma MetricsConserved(es: seq<Edge>, names: seq<string>, metrics: map<string, Metric>)
    requires Clustered(es, names) && AreMetrics(es, names, metrics)
    ensures forall c :: c in names ==> c in metrics
    ensures SumInternal(metrics, names) + SumOutgoing(metrics, names) == |es|
    ensures SumOutgoing(metrics, names) == SumIncoming(metrics, names) == |Having(es, CROSS)|
  {
    assert forall c :: c in names ==> c in Range(names);
    SumsAre(es, metrics, names);
    EdgesConserved(es, names);
    WeighCounts(es, CROSS);
  }

  lemma WeightsAppend(es: seq<Edge>, e: Edge, weights: map<(string, string), nat>, weights': map<(string, string), nat>)
    requires AreWeights(es, weights)
    requires weights' ==
      if CROSS(e) then
        var p := (e.srcCluster, e.dstCluster);
        weights[p := (if p in weights then weights[p] else 0) + |e.lines|]
      else weights
    ensures AreWeights(es + [e], weights')
  {
    assert (es + [e])[..|es|] == es;
    forall s, d
      ensures (s, d) in weights' <==> exists f :: f in es + [e] && Between(s, d)(f)
      ensures (s, d) in weights' ==> weights'[(s, d)] == Weigh(es + [e], Between(s, d), SITES)
    {
      if (s, d) in weights {
        var f :| f in es && Between(s, d)(f);
        assert f in es + [e];
      } else {
        assert Between(s, d)(e) ==> e in es + [e];
        WeighNone(es, Between(s, d), SITES);
      }
    }
  }

  method Weights(es: seq<Edge>) returns (weights: map<(string, string), nat>)
    ensures AreWeights(es, weights)
  {
    weights := map[];
    for i := 0 to |es|
      invariant AreWeights(es[..i], weights)
    {
      var e := es[i];
      ghost var before := weights;
      if e.srcCluster != e.dstCluster {
        var p := (e.srcCluster, e.dstCluster);
        weights := weights[p := (if p in weights then weights[p] else 0) + |e.lines|];
      }
      WeightsAppend(es[..i], e, before, weights);
      assert es[..i + 1] == es[..i] + [e];
    }
    assert es[..|es|] == es;
  }

  /** The cluster graph: s has an edge to d when some call crosses from s to d. */
  function Adjacency(weights: map<(string, string), nat>): Graph {
    var sources := set p | p in weights :: p.0;
    map s | s in sources :: set p | p in weights && p.0 == s :: p.1
  }

  lemma AdjacencyEdge(weights: map<(string, string), nat>, s: string, d: string)
    ensures d in Succ(Adjacency(weights), s) <==> (s, d) in weights
  {
    if (s, d) in weights {
      assert (s, d).0 == s;
    }
  }

  function TwoCycles(weights: map<(string, string), nat>): set<(string, string)> {
    set p | p in weights && (p.1, p.0) in weights :: if StringLe(p.0, p.1) then p else (p.1, p.0)
  }

  /** Some call goes from a to b. */
  ghost predicate Calling(es: seq<Edge>, a: string, b: string) {
    exists e :: e in es && e.srcCluster == a && e.dstCluster == b
  }

  /** The cluster graph has an edge exactly where a call crosses. */
  lemma CallingIff(es: seq<Edge>, weights: map<(string, string), nat>, a: string, b: string)
    requires AreWeights(es, weights)
    ensures b in Succ(Adjacency(weights), a) <==> a != b && Calling(es, a, b)
  {
    AdjacencyEdge(weights, a, b);
    if (a, b) in weights {
      var e :| e in es && Between(a, b)(e);
    }
    if a != b && Calling(es, a, b) {
      var e :| e in es && e.srcCluster == a && e.dstCluster == b;
      assert Between(a, b)(e);
    }
  }

  /** A pair of clusters is reported exactly when calls cross between them in both directions,
      and then once, in ascending order. */
  lemma TwoCyclesIff(es: seq<Edge>, weights: map<(string, string), nat>, a: string, b: string)
    requires AreWeights(es, weights)
    ensures (a, b) in TwoCycles(weights) <==> a != b && StringLe(a, b) && Calling(es, a, b) && Calling(es, b, a)
  {
    CallingIff(es, weights, a, b);
    CallingIff(es, weights, b, a);
    AdjacencyEdge(weights, a, b);
    AdjacencyEdge(weights, b, a);
    StringOrder();
    if (a, b) in TwoCycles(weights) {
      var p :| p in weights && (p.1, p.0) in weights && (a, b) == if StringLe(p.0, p.1) then p else (p.1, p.0);
      assert (p.0, p.1) == p;
    }
    assert ((a, b).1, (a, b).0) == (b, a);
  }

  /** The weights join distinct clusters from the list. */
  ghost predicate Proper(weights: map<(string, string), nat>, names: seq<string>) {
    forall p :: p in weights ==> p.0 != p.1 && p.0 in names && p.1 in names
  }

  /** Each reported two-cycle lies inside one reported component. */
  lemma TwoCycleInComponent(weights: map<(string, string), nat>, names: seq<string>, cycles: seq<seq<string>>,
                            a: string, b: string)
    requires Proper(weights, names) && IsListing(Adjacency(weights), names, cycles)
    requires (a, b) in TwoCycles(weights)
    ensures exists c :: c in cycles && a in c && b in c
  {
    var g := Adjacency(weights);
    var p :| p in weights && (p.1, p.0) in weights && (a, b) == if StringLe(p.0, p.1) then p else (p.1, p.0);
    assert (p.0, p.1) == p;
    assert (a, b) in weights && (b, a) in weights;
    AdjacencyEdge(weights, a, b);
    AdjacencyEdge(weights, b, a);
    ReachEdge(g, a, b);
    ReachEdge(g, b, a);
    ReachRefl(g, a);
    assert a != b && ReachedFrom(g, names, a) && Mutual(g, a, b);
  }

  /** No component is reported exactly when the cluster graph has no cycle. */
  lemma NoComponentsIffAcyclic(weights: map<(string, string), nat>, names: seq<string>, cycles: seq<seq<string>>)
    requires Proper(weights, names) && IsListing(Adjacency(weights), names, cycles)
    ensures cycles == [] <==> !exists p :: IsCycle(Adjacency(weights), p)
  {
    var g := Adjacency(weights);
    if cycles != [] {
      var c := cycles[0];
      assert c in cycles && c[0] in c && c[1] in c && c[0] in Range(c) && c[1] in Range(c);
      assert Mutual(g, c[0], c[1]);
      var p := MutualCycle(g, c[0], c[1]);
    } else if p :| IsCycle(g, p) {
      CycleMutual(g, p);
      AdjacencyEdge(weights, p[0], p[1]);
      ReachRefl(g, p[0]);
      assert ReachedFrom(g, names, p[0]);
    }
  }

  lemma WeightsProper(es: seq<Edge>, weights: map<(string, string), nat>, names: seq<string>)
    requires Clustered(es, names) && AreWeights(es, weights)
    ensures Proper(weights, names)
  {
    forall p | p in weights ensures p.0 != p.1 && p.0 in names && p.1 in names {
      var e :| e in es && Between(p.0, p.1)(e);
    }
  }

  /** The call-edge part of `analyze`. */
  method Analyze(nodes: Calls, clusters: map<string, string>) returns (r: Report, names: seq<string>)
    ensures forall c :: c in names <==> exists n :: n in nodes && LiesIn(clusters, n, c)
    ensures forall e :: e in r.edges ==> LiesIn(clusters, e.src, e.srcCluster) && LiesIn(clusters, e.dst, e.dstCluster)
    ensures Clustered(r.edges, names)
    ensures exists order :: Range(order) == nodes.Keys && AreCalls(nodes, clusters, order, r.edges)
    ensures AreMetrics(r.edges, names, r.metrics) && forall c :: c in names ==> c in r.metrics
    ensures SumInternal(r.metrics, names) + SumOutgoing(r.metrics, names) == |r.edges|
    ensures SumOutgoing(r.metrics, names) == SumIncoming(r.metrics, names) == |Having(r.edges, CROSS)|
    ensures AreWeights(r.edges, r.weights) && SumTable(r.weights, names, names) == Weigh(r.edges, CROSS, SITES)
    ensures IsListing(Adjacency(r.weights), names, r.cycles)
    ensures forall a, b :: b in Succ(Adjacency(r.weights), a) <==> a != b && Calling(r.edges, a, b)
    ensures forall a, b :: (a, b) in r.twoCycles <==>
              a != b && StringLe(a, b) && Calling(r.edges, a, b) && Calling(r.edges, b, a)
    ensures forall a, b :: (a, b) in r.twoCycles ==> exists c :: c in r.cycles && a in c && b in c
    ensures r.cycles == [] <==> !exists p :: IsCycle(Adjacency(r.weights), p)
  {
    var order := SortStrings(nodes.Keys);
    var es := CallEdges(nodes, clusters, order);
    names := ClusterNames(nodes, clusters, es);
    var metrics := Metrics(es, names);
    MetricsConserved(es, names, metrics);
    var weights := Weights(es);
    WeightsConserved(es, weights, names);
    WeightsProper(es, weights, names);
    var cycles := Components(names, Adjacency(weights));
    r := Report(es, metrics, weights, cycles, TwoCycles(weights));
    CyclesAgree(weights, names, cycles);
    NamesAre(nodes, clusters, names);
    CallingAll(es, weights);
  }

  lemma NamesAre(nodes: Calls, clusters: map<string, string>, names: seq<string>)
    requires Range(names) == set n | n in nodes :: ClusterOf(clusters, n)
    ensures forall c :: c in names <==> exists n :: n in nodes && LiesIn(clusters, n, c)
  {
    forall c ensures c in names <==> exists n :: n in nodes && LiesIn(clusters, n, c) {
      assert c in names <==> c in Range(names);
    }
  }

  lemma CallingAll(es: seq<Edge>, weights: map<(string, string), nat>)
    requires AreWeights(es, weights)
    ensures forall a, b :: b in Succ(Adjacency(weights), a) <==> a != b && Calling(es, a, b)
    ensures forall a, b :: (a, b) in TwoCycles(weights) <==>
              a != b && StringLe(a, b) && Calling(es, a, b) && Calling(es, b, a)
  {
    forall a, b { CallingIff(es, weights, a, b); }
    forall a, b { TwoCyclesIff(es, weights, a, b); }
  }

  lemma CyclesAgree(weights: map<(string, string), nat>, names: seq<string>, cycles: seq<seq<string>>)
    requires Proper(weights, names) && IsListing(Adjacency(weights), names, cycles)
    ensures forall a, b :: (a, b) in TwoCycles(weights) ==> exists c :: c in cycles && a in c && b in c
    ensures cycles == [] <==> !exists p :: IsCycle(Adjacency(weights), p)
  {
    forall a, b | (a, b) in TwoCycles(weights) ensures exists c :: c in cycles && a in c && b in c {
      TwoCycleInComponent(weights, names, cycles, a, b);
    }
    NoComponentsIffAcyclic(weights, names, cycles);
  }

  /** The function's cluster is the one listed for it, or else a common one for all others. */
  ghost predicate LiesIn(clusters: map<string, string>, name: string, cluster: string) {
    if name in clusters then cluster == clusters[name] else cluster == "UNMAPPED"
  }

  /** The clusters of the functions, and of both ends of every edge. */
  method ClusterNames(nodes: Calls, clusters: map<string, string>, es: seq<Edge>) returns (names: seq<string>)
    requires exists order :: Range(order) == nodes.Keys && AreCalls(nodes, clusters, order, es)
    ensures Range(names) == set n | n in nodes :: ClusterOf(clusters, n)
    ensures Clustered(es, names)
  {
    names := SortStrings(set n | n in nodes :: ClusterOf(clusters, n));
    forall e | e in es ensures e.srcCluster in names && e.dstCluster in names {
      assert e.srcCluster in Range(names) && e.dstCluster in Range(names);
    }
  }
}
