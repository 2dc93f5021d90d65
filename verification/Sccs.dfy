/** Tarjan's algorithm as `_sccs` runs it: the closure's six variables are the fields of
    one object, and the recursive inner function is the method Strong. */
module Sccs {
  import opened Digraph
  import opened Ordering
  import opened Folding

  /** c is one whole strongly connected component. */
  ghost predicate IsScc(g: Graph, c: set<Vertex>) {
    && c != {}
    && (forall x, y :: x in c && y in c ==> Reach(g, x, y))
    && (forall x, z :: x in c && Mutual(g, x, z) ==> z in c)
  }

  /** out lists every component with more than one member among the vertices of done:
      each of them once, as an ascending list. */
  ghost predicate Lists(g: Graph, out: seq<seq<Vertex>>, done: set<Vertex>) {
    && (forall c :: c in out ==> |c| > 1 && Ascending(StringLe, c) && IsScc(g, Range(c)) && Range(c) <= done)
    && (forall x, y :: x in done && x != y && Mutual(g, x, y) ==> exists c :: c in out && x in c)
    && (forall i, j :: 0 <= i < j < |out| ==> Range(out[i]) !! Range(out[j]))
  }

  /** The traversal's state apart from the low links. */
  datatype Trace = Trace(index: map<Vertex, nat>, counter: nat, stack: seq<Vertex>, out: seq<seq<Vertex>>) {
    /** The vertices whose component has been dealt with. */
    ghost function Done(): set<Vertex> {
      set x | x in index && x !in stack
    }

    /** Indices grow along the stack. */
    ghost predicate Ordered() {
      && (forall x :: x in index ==> index[x] < counter)
      && (forall x :: x in stack ==> x in index)
      && (forall i, j :: 0 <= i < j < |stack| ==> index[stack[i]] < index[stack[j]])
    }

    /** An open vertex, one whose call has not returned, reaches everything above it on the
        stack, and everything on the stack reaches an open vertex at or below it. */
    ghost predicate Linked(g: Graph, open: set<Vertex>)
      requires Ordered() && open <= index.Keys
    {
      && (forall x, y :: x in open && y in stack && index[x] <= index[y] ==> Reach(g, x, y))
      && (forall y :: y in stack ==> exists x :: x in open && index[x] <= index[y] && Reach(g, y, x))
    }

    /** Everything returned from has had all its edges followed. */
    ghost predicate Followed(g: Graph, open: set<Vertex>) {
      forall x :: x in index && x !in open ==> Succ(g, x) <= index.Keys
    }

    /** No component straddles the border of Done. */
    ghost predicate Settled(g: Graph) {
      forall x, y :: x in Done() && Mutual(g, x, y) ==> y in Done()
    }

    ghost predicate Good(g: Graph, open: set<Vertex>) {
      forall n :: Opened(this, n) ==> Sound(g, open)
    }

    ghost predicate Sound(g: Graph, open: set<Vertex>) {
      && Ordered()
      && open <= index.Keys
      && Linked(g, open)
      && Followed(g, open)
      && Settled(g)
      && Lists(g, out, Done())
    }
  }

  /** t continues s: what was indexed keeps its index, and the stack only grew. */
  ghost predicate Continues(s: Trace, t: Trace) {
    && (forall x :: x in s.index ==> x in t.index && t.index[x] == s.index[x])
    && s.stack <= t.stack
  }

  /** What a call on v achieves, from s to t, where link is the low link it leaves. */
  ghost predicate Explored(g: Graph, s: Trace, t: Trace, v: Vertex, link: nat) {
    forall n :: Opened(t, n) ==> IsExplored(g, s, t, v, link)
  }
  ghost predicate IsExplored(g: Graph, s: Trace, t: Trace, v: Vertex, link: nat) {
    && Continues(s, t) && t.Ordered()
    && v in t.index && s.counter <= t.index[v] && link <= t.index[v]
    && (forall x :: x in t.index && x !in s.index ==> Reach(g, v, x))
    && (v !in t.stack ==> t.stack == s.stack && link == t.index[v])
    && (v in t.stack ==> exists y :: y in t.stack && t.index[y] == link && Reach(g, v, y))
    && (forall x, y :: x in t.stack && x !in s.stack && y in s.stack && y in Succ(g, x) ==> link <= t.index[y])
  }

  /** The same with v still open and only the edges from v into seen followed. */
  ghost predicate Exploring(g: Graph, s: Trace, t: Trace, v: Vertex, link: nat, seen: set<Vertex>) {
    forall n :: Opened(t, n) ==> IsExploring(g, s, t, v, link, seen)
  }
  ghost predicate IsExploring(g: Graph, s: Trace, t: Trace, v: Vertex, link: nat, seen: set<Vertex>) {
    && Continues(s, t) && t.Ordered()
    && v !in s.index && v in t.index && s.counter <= t.index[v] && link <= t.index[v]
    && s.stack + [v] <= t.stack
    && (forall x :: x in t.index && x !in s.index ==> Reach(g, v, x))
    && seen <= t.index.Keys
    && (exists y :: y in t.stack && t.index[y] == link && Reach(g, v, y))
    && (forall x, y :: x in t.stack && x !in s.stack && x != v && y in s.stack && y in Succ(g, x) ==>
      link <= t.index[y])
    && (forall y :: y in s.stack && y in seen ==> link <= t.index[y])
  }

  ghost function Pushed(s: Trace, v: Vertex): Trace {
    Trace(s.index[v := s.counter], s.counter + 1, s.stack + [v], s.out)
  }

  lemma PushLinked(g: Graph, s: Trace, v: Vertex, open: set<Vertex>)
    requires s.Ordered() && open <= s.index.Keys && s.Linked(g, open) && v !in s.index
    requires forall x :: x in open ==> Reach(g, x, v)
    ensures Pushed(s, v).Ordered()
    ensures Pushed(s, v).Linked(g, open + {v})
  {
    var t := Pushed(s, v);
    ReachRefl(g, v);
    assert forall x :: x in t.stack <==> x in s.stack || x == v;
    forall y | y in t.stack
      ensures exists x :: x in open + {v} && t.index[x] <= t.index[y] && Reach(g, y, x)
    {
      if y == v {
        assert v in open + {v};
      } else {
        var x :| x in open && s.index[x] <= s.index[y] && Reach(g, y, x);
        assert x in open + {v};
      }
    }
  }

  lemma Push(g: Graph, s: Trace, v: Vertex, open: set<Vertex>)
    requires s.Good(g, open) && v !in s.index
    requires forall x :: x in open ==> Reach(g, x, v)
    ensures Pushed(s, v).Good(g, open + {v})
  {
    assert Opened(s, 0);
    PushLinked(g, s, v, open);
    assert Pushed(s, v).Done() == s.Done();
  }

  lemma PushExploring(g: Graph, s: Trace, v: Vertex, open: set<Vertex>)
    requires s.Good(g, open) && v !in s.index
    ensures Exploring(g, s, Pushed(s, v), v, s.counter, {})
  {
    assert Opened(s, 0);
    var t := Pushed(s, v);
    ReachRefl(g, v);
    assert v in t.stack && t.index[v] == s.counter;
    assert forall x :: x in t.stack <==> x in s.stack || x == v;
  }

  lemma PrefixMember<T>(a: seq<T>, b: seq<T>)
    requires a <= b
    ensures forall x :: x in a ==> x in b
  {
    assert a == b[..|a|];
  }

  /** A child w was explored from t to u: its low link joins v's. */
  lemma Child(g: Graph, s: Trace, t: Trace, u: Trace, v: Vertex, w: Vertex,
              link: nat, childLink: nat, seen: set<Vertex>)
    requires Exploring(g, s, t, v, link, seen)
    requires w in Succ(g, v) && w !in t.index
    requires Explored(g, t, u, w, childLink)
    ensures Exploring(g, s, u, v, if childLink < link then childLink else link, seen + {w})
  {
    ChildAttained(g, s, t, u, v, w, link, childLink, seen);
    ChildBorder(g, s, t, u, v, w, link, childLink, seen);
    ChildReached(g, s, t, u, v, w, link, childLink, seen);
    assert Opened(t, 0) && Opened(u, 0);
    PrefixMember(s.stack, t.stack);
  }

  lemma ChildAttained(g: Graph, s: Trace, t: Trace, u: Trace, v: Vertex, w: Vertex,
                      link: nat, childLink: nat, seen: set<Vertex>)
    requires Exploring(g, s, t, v, link, seen) && Explored(g, t, u, w, childLink)
    requires w in Succ(g, v) && w !in t.index
    ensures u.Ordered()
    ensures exists y :: y in u.stack && u.index[y] == (if childLink < link then childLink else link) && Reach(g, v, y)
  {
    assert Opened(t, 0) && Opened(u, 0);
    if childLink < link {
      assert w in u.stack;
      var y :| y in u.stack && u.index[y] == childLink && Reach(g, w, y);
      ReachEdge(g, v, w);
      ReachTrans(g, v, w, y);
    } else {
      PrefixMember(t.stack, u.stack);
      var y :| y in t.stack && t.index[y] == link && Reach(g, v, y);
      assert y in u.stack;
    }
  }

  lemma ChildReached(g: Graph, s: Trace, t: Trace, u: Trace, v: Vertex, w: Vertex,
                     link: nat, childLink: nat, seen: set<Vertex>)
    requires Exploring(g, s, t, v, link, seen) && Explored(g, t, u, w, childLink)
    requires w in Succ(g, v)
    ensures forall x :: x in u.index && x !in s.index ==> Reach(g, v, x)
  {
    assert Opened(t, 0) && Opened(u, 0);
    ReachEdge(g, v, w);
    forall x | x in u.index && x !in s.index ensures Reach(g, v, x) {
      if x !in t.index { ReachTrans(g, v, w, x); }
    }
  }

  lemma ChildBorder(g: Graph, s: Trace, t: Trace, u: Trace, v: Vertex, w: Vertex,
                    link: nat, childLink: nat, seen: set<Vertex>)
    requires Exploring(g, s, t, v, link, seen) && Explored(g, t, u, w, childLink)
    ensures forall x, y :: x in u.stack && x !in s.stack && x != v && y in s.stack && y in Succ(g, x) ==>
              y in u.index && (link <= u.index[y] || childLink <= u.index[y])
  {
    assert Opened(t, 0) && Opened(u, 0);
    PrefixMember(s.stack, t.stack);
    forall x, y | x in u.stack && x !in s.stack && x != v && y in s.stack && y in Succ(g, x)
      ensures y in u.index && (link <= u.index[y] || childLink <= u.index[y])
    {
      if x in t.stack {
        assert link <= t.index[y];
      } else {
        assert childLink <= u.index[y];
      }
    }
  }

  /** An edge back to w, already on the stack: w's index joins v's low link. */
  lemma Back(g: Graph, s: Trace, t: Trace, v: Vertex, w: Vertex, link: nat, seen: set<Vertex>)
    requires Exploring(g, s, t, v, link, seen)
    requires w in Succ(g, v) && w in t.stack && w in t.index
    ensures Exploring(g, s, t, v, if t.index[w] < link then t.index[w] else link, seen + {w})
  {
    assert Opened(s, 0) && Opened(t, 0);
    ReachEdge(g, v, w);
  }

  /** An edge into an emitted component: nothing to note. */
  lemma Skip(g: Graph, s: Trace, t: Trace, v: Vertex, w: Vertex, link: nat, seen: set<Vertex>)
    requires Exploring(g, s, t, v, link, seen)
    requires w in t.index && w !in t.stack
    ensures Exploring(g, s, t, v, link, seen + {w})
  {
    assert Opened(s, 0) && Opened(t, 0);
    PrefixMember(s.stack, t.stack);
  }

  /** From a vertex whose low link points below it, an open vertex further down is reachable. */
  lemma LinkAnchor(g: Graph, s: Trace, t: Trace, v: Vertex, link: nat, open: set<Vertex>) returns (r: Vertex)
    requires t.Ordered() && open + {v} <= t.index.Keys && t.Linked(g, open + {v})
    requires Exploring(g, s, t, v, link, Succ(g, v)) && v in t.index && link < t.index[v]
    ensures r in open && t.index[r] < t.index[v] && Reach(g, v, r)
  {
    assert Opened(s, 0) && Opened(t, 0);
    var y :| y in t.stack && t.index[y] == link && Reach(g, v, y);
    r :| r in open + {v} && t.index[r] <= t.index[y] && Reach(g, y, r);
    ReachTrans(g, v, y, r);
  }

  lemma ReturnLinked(g: Graph, t: Trace, v: Vertex, open: set<Vertex>, r: Vertex)
    requires t.Ordered() && open + {v} <= t.index.Keys && t.Linked(g, open + {v})
    requires r in open && t.index[r] < t.index[v] && Reach(g, v, r)
    ensures t.Linked(g, open)
  {
    forall z | z in t.stack
      ensures exists x :: x in open && t.index[x] <= t.index[z] && Reach(g, z, x)
    {
      var x :| x in open + {v} && t.index[x] <= t.index[z] && Reach(g, z, x);
      if x == v {
        ReachTrans(g, z, v, r);
        assert r in open;
      } else {
        assert x in open;
      }
    }
    assert open <= open + {v};
    forall x, y | x in open && y in t.stack && t.index[x] <= t.index[y] ensures Reach(g, x, y) {
      assert x in open + {v};
    }
  }

  /** v's edges are all followed and its low link points below it: v stays on the stack. */
  lemma Return(g: Graph, s: Trace, t: Trace, v: Vertex, link: nat, open: set<Vertex>)
    requires s.Good(g, open) && t.Good(g, open + {v})
    requires Exploring(g, s, t, v, link, Succ(g, v)) && v in t.index && link < t.index[v]
    ensures t.Good(g, open)
  {
    assert Opened(s, 0) && Opened(t, 0);
    var r := LinkAnchor(g, s, t, v, link, open);
    ReturnLinked(g, t, v, open, r);
    forall x | x in t.index && x !in open ensures Succ(g, x) <= t.index.Keys {
      if x != v { assert x !in open + {v}; }
    }
  }

  lemma ReturnExplored(g: Graph, s: Trace, t: Trace, v: Vertex, link: nat)
    requires Exploring(g, s, t, v, link, Succ(g, v))
    ensures Explored(g, s, t, v, link)
  {
    assert Opened(s, 0) && Opened(t, 0);
    PrefixMember(s.stack + [v], t.stack);
    assert v in s.stack + [v];
  }

  /** What stands on the stack from v upwards. */
  ghost function Above(s: Trace, t: Trace): set<Vertex>
    requires s.stack <= t.stack
  {
    Range(t.stack[|s.stack|..])
  }

  lemma AboveMembers(s: Trace, t: Trace, v: Vertex)
    requires s.stack + [v] <= t.stack && t.Ordered()
    ensures t.stack[|s.stack|] == v && v in Above(s, t)
    ensures forall x :: x in t.stack <==> x in s.stack || x in Above(s, t)
    ensures forall x :: x in Above(s, t) ==> x !in s.stack && t.index[v] <= t.index[x]
  {
    assert t.stack == s.stack + t.stack[|s.stack|..];
    assert (s.stack + [v])[|s.stack|] == v;
    assert t.stack[|s.stack|..][0] == v;
  }

  /** If v's low link is its own index, what stands above it can all reach v and back. */
  lemma AboveConnected(g: Graph, s: Trace, t: Trace, v: Vertex, open: set<Vertex>, x: Vertex)
    requires s.Good(g, open) && t.Good(g, open + {v})
    requires Continues(s, t) && s.stack + [v] <= t.stack && v in t.index && s.counter <= t.index[v]
    requires x in Above(s, t)
    ensures Reach(g, v, x) && Reach(g, x, v)
  {
    assert Opened(s, 0) && Opened(t, 0);
    AboveMembers(s, t, v);
    assert v in open + {v};
    var y :| y in open + {v} && t.index[y] <= t.index[x] && Reach(g, x, y);
    if y != v {
      assert t.index[y] < s.counter;
      ReachTrans(g, x, y, v);
    }
  }

  /** What the end of a call may rely on. */
  lemma InProgress(g: Graph, s: Trace, t: Trace, v: Vertex, link: nat, open: set<Vertex>)
    requires t.Good(g, open + {v}) && Exploring(g, s, t, v, link, Succ(g, v))
    ensures v in t.index && link <= t.index[v]
    ensures s.stack <= t.stack && |s.stack| < |t.stack| && t.stack[|s.stack|] == v
    ensures forall i, j :: 0 <= i < j < |t.stack| ==> t.stack[i] != t.stack[j]
  {
    assert Opened(s, 0) && Opened(t, 0);
    AboveMembers(s, t, v);
  }

  /** ... and nothing else is mutually reachable with it: it is one component. */
  lemma AboveIsScc(g: Graph, s: Trace, t: Trace, v: Vertex, open: set<Vertex>)
    requires s.Good(g, open) && t.Good(g, open + {v})
    requires v in t.index && s.stack <= t.stack && Exploring(g, s, t, v, t.index[v], Succ(g, v))
    ensures IsScc(g, Above(s, t))
  {
    assert Opened(s, 0) && Opened(t, 0);
    var C := Above(s, t);
    AboveMembers(s, t, v);
    forall x, y | x in C && y in C ensures Reach(g, x, y) {
      AboveConnected(g, s, t, v, open, x);
      AboveConnected(g, s, t, v, open, y);
      ReachTrans(g, x, v, y);
    }
    forall x, z | x in C && Mutual(g, x, z) ensures z in C {
      if z !in C {
        var a, b := Leaves(g, x, z, C);
        Straddle(g, s, t, v, open, a, b);
        ReachEdge(g, a, b);
        ReachTrans(g, b, z, x);
        ReachTrans(g, b, x, a);
        assert Mutual(g, b, a);
      }
    }
  }

  /** An edge out of the part above v ends in an emitted component. */
  lemma Straddle(g: Graph, s: Trace, t: Trace, v: Vertex, open: set<Vertex>, a: Vertex, b: Vertex)
    requires s.Good(g, open) && t.Good(g, open + {v})
    requires v in t.index && s.stack <= t.stack && Exploring(g, s, t, v, t.index[v], Succ(g, v))
    requires a in Above(s, t) && b in Succ(g, a) && b !in Above(s, t)
    ensures b in t.Done()
  {
    assert Opened(s, 0) && Opened(t, 0);
    AboveMembers(s, t, v);
    assert b in t.index;
  }

  ghost function Popped(s: Trace, t: Trace, out: seq<seq<Vertex>>): Trace {
    Trace(t.index, t.counter, s.stack, out)
  }

  /** v is the root of its component: the part of the stack from v upwards is removed and,
      if it has more than one member, emitted. */
  lemma Pop(g: Graph, s: Trace, t: Trace, v: Vertex, open: set<Vertex>, comp: seq<Vertex>, out: seq<seq<Vertex>>)
    requires s.Good(g, open) && t.Good(g, open + {v})
    requires v in t.index && s.stack <= t.stack && Exploring(g, s, t, v, t.index[v], Succ(g, v))
    requires Range(comp) == Above(s, t) && Ascending(StringLe, comp)
    requires out == if |comp| > 1 then t.out + [comp] else t.out
    ensures Popped(s, t, out).Good(g, open)
  {
    AboveIsScc(g, s, t, v, open);
    PopDone(g, s, t, v, open, out);
    PopEmits(g, s, t, v, open, comp, out);
    PopFollows(g, s, t, v, open, out);
    PopLinks(g, s, t, v, open, out);
  }

  lemma PopEmits(g: Graph, s: Trace, t: Trace, v: Vertex, open: set<Vertex>, comp: seq<Vertex>, out: seq<seq<Vertex>>)
    requires t.Good(g, open + {v})
    requires s.stack <= t.stack && IsScc(g, Above(s, t)) && t.Done() !! Above(s, t)
    requires Range(comp) == Above(s, t) && Ascending(StringLe, comp)
    requires out == if |comp| > 1 then t.out + [comp] else t.out
    ensures Lists(g, out, t.Done() + Above(s, t))
  {
    assert Opened(t, 0);
    PopLists(g, t.out, out, t.Done(), Above(s, t), comp);
  }

  lemma PopFollows(g: Graph, s: Trace, t: Trace, v: Vertex, open: set<Vertex>, out: seq<seq<Vertex>>)
    requires v in t.index && t.Good(g, open + {v}) && Exploring(g, s, t, v, t.index[v], Succ(g, v))
    ensures Popped(s, t, out).Followed(g, open)
  {
    assert Opened(t, 0);
    forall x | x in t.index && x !in open ensures Succ(g, x) <= t.index.Keys {
      if x != v { assert x !in open + {v}; }
    }
  }

  lemma PopLinks(g: Graph, s: Trace, t: Trace, v: Vertex, open: set<Vertex>, out: seq<seq<Vertex>>)
    requires s.Good(g, open)
    requires v in t.index && s.stack <= t.stack && Exploring(g, s, t, v, t.index[v], Succ(g, v))
    ensures Popped(s, t, out).Ordered() && open <= t.index.Keys && Popped(s, t, out).Linked(g, open)
  {
    assert Opened(s, 0) && Opened(t, 0);
    PopLinked(g, s, Popped(s, t, out), open);
  }

  lemma PopDone(g: Graph, s: Trace, t: Trace, v: Vertex, open: set<Vertex>, out: seq<seq<Vertex>>)
    requires t.Good(g, open + {v})
    requires v in t.index && s.stack <= t.stack && Exploring(g, s, t, v, t.index[v], Succ(g, v))
    requires IsScc(g, Above(s, t))
    ensures t.Done() !! Above(s, t)
    ensures Popped(s, t, out).Done() == t.Done() + Above(s, t)
    ensures Popped(s, t, out).Settled(g)
  {
    assert Opened(s, 0) && Opened(t, 0);
    AboveMembers(s, t, v);
    assert Popped(s, t, out).Done() == t.Done() + Above(s, t);
  }

  lemma PopExplored(g: Graph, s: Trace, t: Trace, v: Vertex, open: set<Vertex>, out: seq<seq<Vertex>>)
    requires t.Good(g, open + {v})
    requires v in t.index && s.stack <= t.stack && Exploring(g, s, t, v, t.index[v], Succ(g, v))
    ensures Explored(g, s, Popped(s, t, out), v, t.index[v])
  {
    assert Opened(s, 0) && Opened(t, 0);
    AboveMembers(s, t, v);
  }

  lemma PopLinked(g: Graph, s: Trace, u: Trace, open: set<Vertex>)
    requires s.Ordered() && open <= s.index.Keys && s.Linked(g, open)
    requires Continues(s, u) && u.stack == s.stack && u.Ordered()
    ensures u.Linked(g, open)
  {
    forall y | y in u.stack
      ensures exists x :: x in open && u.index[x] <= u.index[y] && Reach(g, y, x)
    {
      var x :| x in open && s.index[x] <= s.index[y] && Reach(g, y, x);
      assert x in open && u.index[x] <= u.index[y];
    }
  }

  lemma PopLists(g: Graph, out: seq<seq<Vertex>>, out': seq<seq<Vertex>>, done: set<Vertex>, C: set<Vertex>,
                 comp: seq<Vertex>)
    requires Lists(g, out, done) && IsScc(g, C) && C !! done
    requires Range(comp) == C && Ascending(StringLe, comp)
    requires out' == if |comp| > 1 then out + [comp] else out
    ensures Lists(g, out', done + C)
  {
    forall x, y | x in done + C && x != y && Mutual(g, x, y) ensures exists c :: c in out' && x in c {
      if x in done {
        var c :| c in out && x in c;
        assert c in out';
      } else {
        assert x in comp && y in comp;
        assert comp in out';
      }
    }
    forall c | c in out' ensures |c| > 1 && Ascending(StringLe, c) && IsScc(g, Range(c)) && Range(c) <= done + C {
      assert c in out || c == comp;
    }
    forall i, j | 0 <= i < j < |out'| ensures Range(out'[i]) !! Range(out'[j]) {
      if j == |out| {
        assert out'[i] in out;
      }
    }
  }

  /** The component is added, as an ascending list, if it has more than one member. */
  ghost predicate Emitted(before: seq<seq<Vertex>>, c: set<Vertex>, after: seq<seq<Vertex>>) {
    if |c| > 1 then
      |after| == |before| + 1 && after[..|before|] == before
      && Range(after[|before|]) == c && Ascending(StringLe, after[|before|])
    else after == before
  }

  ghost predicate Keeps(before: map<Vertex, nat>, after: map<Vertex, nat>) {
    forall x :: x in before ==> x in after && after[x] == before[x]
  }

  class Tarjan {
    const adj: Graph
    ghost const universe: set<Vertex>
    var index: map<Vertex, nat>
    var low: map<Vertex, nat>
    var onStack: set<Vertex>
    var stack: seq<Vertex>
    var out: seq<seq<Vertex>>
    var counter: nat

    constructor (adj: Graph, ghost universe: set<Vertex>)
      requires forall v :: v in universe ==> Succ(adj, v) <= universe
      ensures this.adj == adj && this.universe == universe
      ensures Valid({}) && View() == Trace(map[], 0, [], [])
    {
      this.adj, this.universe := adj, universe;
      index, low, onStack, stack, out, counter := map[], map[], {}, [], [], 0;
    }

    ghost function View(): Trace
      reads this
    {
      Trace(index, counter, stack, out)
    }

    /** The state between steps, where open holds the vertices whose calls have not returned. */
    ghost predicate Valid(open: set<Vertex>)
      reads this
    {
      && Fields()
      && View().Good(adj, open)
    }

    ghost predicate Fields()
      reads this
    {
      && (forall v :: v in universe ==> Succ(adj, v) <= universe)
      && onStack == Range(stack)
      && low.Keys == index.Keys <= universe
    }

    /** Pop vertices off the stack until v, which stands at position k, has been popped. */
    method PopThrough(v: Vertex, ghost k: nat) returns (comp: seq<Vertex>)
      requires k < |stack| && stack[k] == v && onStack == Range(stack)
      requires forall i, j :: 0 <= i < j < |stack| ==> stack[i] != stack[j]
      modifies this`stack, this`onStack
      ensures stack == old(stack)[..k] && onStack == Range(stack)
      ensures Range(comp) == Range(old(stack)[k..]) && |comp| == |Range(comp)|
    {
      comp := [];
      while true
        invariant k < |stack| <= |old(stack)| && stack == old(stack)[..|stack|]
        invariant onStack == Range(stack)
        invariant |comp| == |old(stack)| - |stack|
        invariant forall i :: 0 <= i < |comp| ==> comp[i] == old(stack)[|old(stack)| - 1 - i]
        decreases |stack|
      {
        var w := stack[|stack| - 1];
        assert stack == stack[..|stack| - 1] + [w];
        stack := stack[..|stack| - 1];
        onStack := onStack - {w};
        comp := comp + [w];
        if w == v {
          break;
        }
      }
      DistinctSize(comp);
      forall x | x in old(stack)[k..] ensures x in comp {
        var i :| k <= i < |old(stack)| && old(stack)[i] == x;
        assert comp[|old(stack)| - 1 - i] == x;
      }
    }

    method Strong(v: Vertex, ghost open: set<Vertex>)
      requires Valid(open) && v in universe && v !in index
      requires forall x :: x in open ==> Reach(adj, x, v)
      modifies this
      ensures Valid(open) && v in index
      ensures Keeps(old(low), low)
      ensures Explored(adj, old(View()), View(), v, low[v])
      decreases universe - index.Keys, 0
    {
      ghost var s := View();
      Enter(v, open);
      var ws := SortStrings(Succ(adj, v));
      ghost var seen: set<Vertex> := {};
      for i := 0 to |ws|
        invariant Fields() && View().Good(adj, open + {v})
        invariant v in low && Exploring(adj, s, View(), v, low[v], seen)
        invariant forall x :: x in seen <==> x in ws[..i]
        invariant Keeps(old(low), low)
      {
        assert ws[..i + 1] == ws[..i] + [ws[i]];
        assert ws[i] in Range(ws);
        Follow(v, ws[i], s, open, seen);
        seen := seen + {ws[i]};
      }
      assert ws[..|ws|] == ws && seen == Succ(adj, v);
      Close(v, s, open);
    }

    /** The beginning of Strong: v gets the next index and goes on the stack. */
    method Enter(v: Vertex, ghost open: set<Vertex>)
      requires Valid(open) && v in universe && v !in index
      requires forall x :: x in open ==> Reach(adj, x, v)
      modifies this`index, this`low, this`counter, this`stack, this`onStack
      ensures Fields() && View() == Pushed(old(View()), v) && View().Good(adj, open + {v})
      ensures v in low && Exploring(adj, old(View()), View(), v, low[v], {}) && Keeps(old(low), low)
    {
      Push(adj, View(), v, open);
      PushExploring(adj, View(), v, open);
      index, low := index[v := counter], low[v := counter];
      counter := counter + 1;
      stack := stack + [v];
      onStack := onStack + {v};
    }

    /** The outer loop's body: a root not yet met starts a traversal of its own. */
    method Visit(v: Vertex, ghost roots: seq<Vertex>, ghost n: nat)
      requires Valid({}) && v in universe && n < |roots| && roots[n] == v
      requires Visited(adj, roots, n, index)
      modifies this
      ensures Valid({}) && Visited(adj, roots, n + 1, index)
    {
      if v !in index {
        ghost var before := View();
        Strong(v, {});
        VisitedFrom(adj, roots, n, before, View(), low[v]);
      }
    }

    /** The end of Strong: emit v's component if v is its root. */
    method Close(v: Vertex, ghost s: Trace, ghost open: set<Vertex>)
      requires s.Good(adj, open) && Fields() && View().Good(adj, open + {v})
      requires v in low && Exploring(adj, s, View(), v, low[v], Succ(adj, v))
      modifies this`stack, this`onStack, this`out
      ensures Valid(open) && Explored(adj, s, View(), v, low[v])
      ensures low[v] != index[v] ==> stack == old(stack) && out == old(out)
      ensures |s.stack| <= |old(stack)|
      ensures low[v] == index[v] ==> stack == s.stack && Emitted(old(out), Range(old(stack)[|s.stack|..]), out)
    {
      ghost var t := View();
      InProgress(adj, s, t, v, low[v], open);
      if low[v] == index[v] {
        var comp := PopThrough(v, |s.stack|);
        var sorted := SortStrings(Range(comp));
        if |comp| > 1 {
          out := out + [sorted];
        }
        Pop(adj, s, t, v, open, sorted, out);
        PopExplored(adj, s, t, v, open, out);
        assert View() == Popped(s, t, out);
      } else {
        Return(adj, s, t, v, low[v], open);
        ReturnExplored(adj, s, t, v, low[v]);
      }
    }

    /** The loop body of Strong: follow the edge from v to w. */
    method Follow(v: Vertex, w: Vertex, ghost s: Trace, ghost open: set<Vertex>, ghost seen: set<Vertex>)
      requires Fields() && View().Good(adj, open + {v})
      requires v in low && Exploring(adj, s, View(), v, low[v], seen)
      requires w in Succ(adj, v)
      requires forall x :: x in open ==> Reach(adj, x, v)
      modifies this
      ensures Fields() && View().Good(adj, open + {v})
      ensures v in low && Exploring(adj, s, View(), v, low[v], seen + {w})
      ensures forall x :: x in old(low) && x != v ==> x in low && low[x] == old(low[x])
      decreases universe - index.Keys, 1
    {
      ghost var t := View();
      assert v in universe && w in universe;
      if w !in index {
        forall x | x in open + {v} ensures Reach(adj, x, w) {
          ReachEdge(adj, v, w);
          if x != v { ReachTrans(adj, x, v, w); }
        }
        Strong(w, open + {v});
        Child(adj, s, t, View(), v, w, low[v], low[w], seen);
        low := low[v := if low[w] < low[v] then low[w] else low[v]];
      } else if w in onStack {
        Back(adj, s, t, v, w, low[v], seen);
        low := low[v := if index[w] < low[v] then index[w] else low[v]];
      } else {
        Skip(adj, s, t, v, w, low[v], seen);
      }
    }
  }

  ghost predicate ReachedFrom(g: Graph, roots: seq<Vertex>, x: Vertex) {
    exists r :: r in roots && Reach(g, r, x)
  }

  /** What `_sccs` promises: every component with more than one member among the vertices
      reachable from the roots, as ascending lists in ascending order. */
  ghost predicate IsListing(g: Graph, roots: seq<Vertex>, result: seq<seq<Vertex>>) {
    && Ascending(ListLe, result)
    && (forall c :: c in result ==> |c| > 1 && Ascending(StringLe, c) && IsScc(g, Range(c)))
    && (forall c, x :: c in result && x in c ==> ReachedFrom(g, roots, x))
    && (forall x, y :: ReachedFrom(g, roots, x) && x != y && Mutual(g, x, y) ==>
          exists c :: c in result && x in c && y in c)
  }

  function Vertices(nodes: seq<Vertex>, adj: Graph): set<Vertex> {
    Range(nodes) + adj.Keys + set k, w | k in adj && w in adj[k] :: w
  }

  lemma VerticesClosed(nodes: seq<Vertex>, adj: Graph)
    ensures forall v :: v in Vertices(nodes, adj) ==> Succ(adj, v) <= Vertices(nodes, adj)
  {
  }

  /** Every vertex of index was reached from one of the roots, and the first n were visited. */
  ghost predicate Visited(g: Graph, roots: seq<Vertex>, n: nat, index: map<Vertex, nat>)
    requires n <= |roots|
  {
    && (forall x :: x in index ==> ReachedFrom(g, roots, x))
    && (forall i :: 0 <= i < n ==> roots[i] in index)
  }

  /** `_sccs`. A vertex listed twice in nodes is skipped the second time, so the distinct
      ones are what is sorted here. */
  method Components(nodes: seq<Vertex>, adj: Graph) returns (result: seq<seq<Vertex>>)
    ensures IsListing(adj, nodes, result)
  {
    VerticesClosed(nodes, adj);
    var t := new Tarjan(adj, Vertices(nodes, adj));
    var roots := SortStrings(Range(nodes));
    for i := 0 to |roots|
      invariant t.adj == adj && t.universe == Vertices(nodes, adj)
      invariant t.Valid({}) && fresh(t)
      invariant Visited(adj, roots, i, t.index)
    {
      assert roots[i] in Range(roots);
      t.Visit(roots[i], roots, i);
    }
    result := SortLists(Range(t.out));
    Finish(adj, nodes, roots, t.View(), result);
  }

  lemma VisitedFrom(g: Graph, roots: seq<Vertex>, i: nat, s: Trace, t: Trace, link: nat)
    requires i < |roots| && Explored(g, s, t, roots[i], link)
    requires Visited(g, roots, i, s.index)
    ensures Visited(g, roots, i + 1, t.index)
  {
    assert Opened(t, 0);
    forall x | x in t.index ensures ReachedFrom(g, roots, x) {
      if x !in s.index {
        assert roots[i] in roots && Reach(g, roots[i], x);
      }
    }
  }

  /** When every root has been visited and no call is open, out lists every component. */
  lemma Finish(g: Graph, nodes: seq<Vertex>, roots: seq<Vertex>, t: Trace, result: seq<seq<Vertex>>)
    requires Range(nodes) == Range(roots)
    requires t.Good(g, {}) && Visited(g, roots, |roots|, t.index)
    requires Ascending(ListLe, result) && Range(result) == Range(t.out)
    ensures IsListing(g, nodes, result)
  {
    FinishRoots(g, roots, t, result);
    assert forall r :: r in nodes <==> r in Range(roots);
    SameRoots(g, roots, nodes, result);
  }

  lemma FinishRoots(g: Graph, roots: seq<Vertex>, t: Trace, result: seq<seq<Vertex>>)
    requires t.Good(g, {}) && Visited(g, roots, |roots|, t.index)
    requires Ascending(ListLe, result) && Range(result) == Range(t.out)
    ensures IsListing(g, roots, result)
  {
    NothingOpen(g, t);
    assert forall c :: c in result <==> c in Range(t.out);
    forall x, y | ReachedFrom(g, roots, x) && x != y && Mutual(g, x, y)
      ensures exists c :: c in result && x in c && y in c
    {
      var c := Listed(g, roots, t, x, y);
      assert c in result;
    }
  }

  lemma Listed(g: Graph, roots: seq<Vertex>, t: Trace, x: Vertex, y: Vertex) returns (c: seq<Vertex>)
    requires Lists(g, t.out, t.index.Keys) && Visited(g, roots, |roots|, t.index)
    requires forall x :: x in t.index.Keys ==> Succ(g, x) <= t.index.Keys
    requires ReachedFrom(g, roots, x) && x != y && Mutual(g, x, y)
    ensures c in t.out && x in c && y in c
  {
    var r :| r in roots && Reach(g, r, x);
    ClosedReach(g, t.index.Keys, r, x);
    c :| c in t.out && x in c;
    assert x in Range(c) && y in Range(c);
  }

  lemma NothingOpen(g: Graph, t: Trace)
    requires t.Good(g, {})
    ensures Lists(g, t.out, t.index.Keys)
    ensures forall x :: x in t.index.Keys ==> Succ(g, x) <= t.index.Keys
  {
    assert Opened(t, 0);
    assert t.Done() == t.index.Keys;
  }

  lemma SameRoots(g: Graph, roots: seq<Vertex>, nodes: seq<Vertex>, result: seq<seq<Vertex>>)
    requires IsListing(g, roots, result) && forall r :: r in nodes <==> r in roots
    ensures IsListing(g, nodes, result)
  {
    forall x ensures ReachedFrom(g, roots, x) <==> ReachedFrom(g, nodes, x) {}
  }

  lemma SameComponent(g: Graph, c: seq<Vertex>, d: seq<Vertex>, x: Vertex)
    requires IsScc(g, Range(c)) && IsScc(g, Range(d)) && x in c && x in d
    requires Ascending(StringLe, c) && Ascending(StringLe, d)
    ensures c == d
  {
    forall z ensures z in c <==> z in d {
      assert z in c ==> z in Range(c) && x in Range(c) && Mutual(g, x, z);
      assert z in d ==> z in Range(d) && x in Range(d) && Mutual(g, x, z);
      assert x in Range(c) && x in Range(d);
    }
    StringOrder();
    AscendingUnique(StringLe, c, d);
  }

  lemma ListingIncluded(g: Graph, roots: seq<Vertex>, a: seq<seq<Vertex>>, b: seq<seq<Vertex>>)
    requires IsListing(g, roots, a) && IsListing(g, roots, b)
    ensures forall c :: c in a ==> c in b
  {
    forall c | c in a ensures c in b {
      var x, y := c[0], c[1];
      assert x in c && y in c && x in Range(c) && y in Range(c);
      assert Mutual(g, x, y);
      var d :| d in b && x in d && y in d;
      SameComponent(g, c, d, x);
    }
  }

  /** The promise leaves no freedom: the result is a function of the graph and its roots. */
  lemma ListingUnique(g: Graph, roots: seq<Vertex>, a: seq<seq<Vertex>>, b: seq<seq<Vertex>>)
    requires IsListing(g, roots, a) && IsListing(g, roots, b)
    ensures a == b
  {
    ListingIncluded(g, roots, a, b);
    ListingIncluded(g, roots, b, a);
    ListOrder();
    AscendingUnique(ListLe, a, b);
  }
}
