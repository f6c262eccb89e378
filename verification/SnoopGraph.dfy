/**
 Finite directed graphs, as much of them as snooping needs: paths, reachability, the absence of
 cycles and of diamonds, what a depth-first search with one seen-set finds out, and what adding
 or dropping an edge does.
 */
module SnoopGraph {

  /** Each vertex with the set of vertices it points to. */
  type Graph<V> = map<V, set<V>>

  ghost predicate Within<V>(g: Graph<V>) {
    forall v :: v in g ==> g[v] <= g.Keys
  }

  ghost predicate Edge<V>(g: Graph<V>, a: V, older b: V) {
    a in g && b in g[a]
  }

  /** `p` lists the vertices of a path from `a` to `b`. */
  ghost predicate Joins<V>(g: Graph<V>, older p: seq<V>, a: V, older b: V)
    decreases |p|
  {
    && p != [] && p[0] == a
    && if |p| == 1 then a == b else Edge(g, a, p[1]) && Joins(g, p[1..], p[1], b) && p == [a] + p[1..]
  }

  /** Reachability, each vertex reaching itself. */
  ghost predicate Reaches<V>(g: Graph<V>, a: V, older b: V) {
    exists p :: Joins(g, p, a, b)
  }

  /** No vertex can be reached from `d` along two different paths. */
  ghost predicate OnePathEach<V>(g: Graph<V>, d: V) {
    forall p, q, x :: Joins(g, p, d, x) && Joins(g, q, d, x) ==> p == q
  }

  /** From `d` nothing in `seen` can be reached, and nothing else along two different paths. */
  ghost predicate Clear<V>(g: Graph<V>, seen: set<V>, d: V) {
    OnePathEach(g, d) && forall x :: Reaches(g, d, x) ==> x !in seen
  }

  /** No edge lies on a cycle. */
  ghost predicate Acyclic<V>(g: Graph<V>) {
    forall a, b :: Edge(g, a, b) ==> !Reaches(g, b, a)
  }

  // ----- reachability

  lemma ReachesSelf<V>(g: Graph<V>, a: V)
    ensures Reaches(g, a, a) && Joins(g, [a], a, a)
  {
    assert Joins(g, [a], a, a);
  }

  lemma Prepend<V>(g: Graph<V>, a: V, b: V, p: seq<V>, c: V)
    requires Edge(g, a, b) && Joins(g, p, b, c)
    ensures Joins(g, [a] + p, a, c) && Reaches(g, a, c)
  {
    assert ([a] + p)[1..] == p;
    assert Joins(g, [a] + p, a, c);
  }

  lemma ReachesStep<V>(g: Graph<V>, a: V, b: V, c: V)
    requires Edge(g, a, b) && Reaches(g, b, c)
    ensures Reaches(g, a, c)
  {
    var p :| Joins(g, p, b, c);
    Prepend(g, a, b, p, c);
  }

  lemma {:induction false} ReachesAlong<V>(g: Graph<V>, p: seq<V>, a: V, b: V, c: V)
    requires Joins(g, p, a, b) && Reaches(g, b, c)
    ensures Reaches(g, a, c)
    decreases |p|
  {
    if |p| > 1 {
      ReachesAlong(g, p[1..], p[1], b, c);
      ReachesStep(g, a, p[1], c);
    }
  }

  lemma ReachesTransitive<V>(g: Graph<V>, a: V, b: V, c: V)
    requires Reaches(g, a, b) && Reaches(g, b, c)
    ensures Reaches(g, a, c)
  {
    var p :| Joins(g, p, a, b);
    ReachesAlong(g, p, a, b, c);
  }

  lemma {:induction false} PathStaysWithin<V>(g: Graph<V>, p: seq<V>, a: V, b: V)
    requires Within(g) && a in g && Joins(g, p, a, b)
    ensures b in g && forall i :: 0 <= i < |p| ==> p[i] in g
    decreases |p|
  {
    if |p| > 1 {
      PathStaysWithin(g, p[1..], p[1], b);
      assert forall i :: 0 < i < |p| ==> p[i] == p[1..][i - 1];
    }
  }

  // ----- the search: what it has established after some of the children of `d`

  ghost predicate Explored<V>(g: Graph<V>, seen0: set<V>, d: V, done: set<V>, seen: set<V>) {
    && d in g && done <= g[d] && d !in seen0 && seen0 + {d} <= seen
    && (forall c :: c in done ==> Clear(g, seen0 + {d}, c))
    && (forall b, c, x :: b in done && c in done && Reaches(g, b, x) && Reaches(g, c, x) ==> b == c)
    && (forall c, x :: c in done && Reaches(g, c, x) ==> x in seen)
    && (forall x :: x in seen ==> x in seen0 + {d} || exists c :: c in done && Reaches(g, c, x))
  }

  lemma ExploreNext<V>(g: Graph<V>, seen0: set<V>, d: V, done: set<V>, seen: set<V>, c: V, seen': set<V>)
    requires Explored(g, seen0, d, done, seen) && c in g[d] - done && Clear(g, seen, c)
    requires seen <= seen' && forall x :: Reaches(g, c, x) ==> x in seen'
    requires forall x :: x in seen' ==> x in seen || Reaches(g, c, x)
    ensures Explored(g, seen0, d, done + {c}, seen')
  {
  }

  /** A child that is not clear of what was seen before shows that `d` is not clear. */
  lemma ExploreFails<V>(g: Graph<V>, seen0: set<V>, d: V, done: set<V>, seen: set<V>, c: V)
    requires Explored(g, seen0, d, done, seen) && c in g[d] - done && !Clear(g, seen, c)
    ensures !Clear(g, seen0, d)
  {
    if !OnePathEach(g, c) {
      var p, q, x :| Joins(g, p, c, x) && Joins(g, q, c, x) && p != q;
      Diamond(g, d, c, p, c, q, x);
    } else {
      var x :| Reaches(g, c, x) && x in seen;
      var p :| Joins(g, p, c, x);
      Prepend(g, d, c, p, x);
      if x == d {
        ReachesSelf(g, d);
        assert [d] + p != [d];
      } else if x !in seen0 {
        var b :| b in done && Reaches(g, b, x);
        var q :| Joins(g, q, b, x);
        Diamond(g, d, c, p, b, q, x);
      }
    }
  }

  lemma Diamond<V>(g: Graph<V>, d: V, b: V, p: seq<V>, c: V, q: seq<V>, x: V)
    requires Edge(g, d, b) && Edge(g, d, c) && Joins(g, p, b, x) && Joins(g, q, c, x) && p != q
    ensures !OnePathEach(g, d)
  {
    Prepend(g, d, b, p, x);
    Prepend(g, d, c, q, x);
    assert ([d] + p)[1..] == p && ([d] + q)[1..] == q;
  }

  /** All children explored without a clash: `d` is clear, and exactly what it reaches was added. */
  lemma ExploreDone<V>(g: Graph<V>, seen0: set<V>, d: V, seen: set<V>)
    requires d in g && Explored(g, seen0, d, g[d], seen)
    ensures Clear(g, seen0, d)
    ensures forall x :: Reaches(g, d, x) ==> x in seen
    ensures forall x :: x in seen ==> x in seen0 || Reaches(g, d, x)
  {
    forall x | Reaches(g, d, x) ensures x in seen && x !in seen0 {
      var p :| Joins(g, p, d, x);
      if |p| > 1 {
        assert Joins(g, p[1..], p[1], x) && Reaches(g, p[1], x);
      }
    }
    forall x | x in seen && x !in seen0 ensures Reaches(g, d, x) {
      ReachesSelf(g, d);
      if x != d {
        var c :| c in g[d] && Reaches(g, c, x);
        ReachesStep(g, d, c, x);
      }
    }
    forall p, q, x | Joins(g, p, d, x) && Joins(g, q, d, x) ensures p == q {
      ExploreUnique(g, seen0, d, seen, p, q, x);
    }
  }

  lemma ExploreUnique<V>(g: Graph<V>, seen0: set<V>, d: V, seen: set<V>, p: seq<V>, q: seq<V>, x: V)
    requires d in g && Explored(g, seen0, d, g[d], seen) && Joins(g, p, d, x) && Joins(g, q, d, x)
    ensures p == q
  {
    assert |p| > 1 ==> Joins(g, p[1..], p[1], x) && Reaches(g, p[1], x);
    assert |q| > 1 ==> Joins(g, q[1..], q[1], x) && Reaches(g, q[1], x);
    if |p| > 1 && |q| > 1 {
      assert p[1] == q[1] && OnePathEach(g, p[1]);
      assert p[1..] == q[1..];
    }
  }

  /** A vertex that was already seen is not clear. */
  lemma SeenIsNotClear<V>(g: Graph<V>, seen: set<V>, d: V)
    requires d in seen
    ensures !Clear(g, seen, d)
  {
    ReachesSelf(g, d);
  }

  /** No cycle need be involved: being able to reach one vertex in two ways is enough not to be clear. */
  lemma DiamondIsNotClear<V>(g: Graph<V>, seen: set<V>, d: V, b: V, c: V, x: V)
    requires Edge(g, d, b) && Edge(g, d, c) && b != c && Edge(g, b, x) && Edge(g, c, x)
    ensures !Clear(g, seen, d)
  {
    ReachesSelf(g, x);
    Prepend(g, b, x, [x], x);
    Prepend(g, c, x, [x], x);
    Diamond(g, d, b, [b] + [x], c, [c] + [x], x);
  }

  // ----- changing edges

  function Linked<V>(g: Graph<V>, a: V, b: V): Graph<V>
    requires a in g
  {
    g[a := g[a] + {b}]
  }

  /** A path in the larger graph either avoids the new edge or can be cut at its last use. */
  lemma {:induction false} OldOrThrough<V>(g: Graph<V>, a: V, b: V, p: seq<V>, x: V, y: V)
    requires a in g && Joins(Linked(g, a, b), p, x, y)
    ensures Reaches(g, x, y) || (Reaches(g, x, a) && Reaches(g, b, y))
    decreases |p|
  {
    ReachesSelf(g, x);
    if |p| > 1 {
      OldOrThrough(g, a, b, p[1..], p[1], y);
      if Edge(g, x, p[1]) {
        if Reaches(g, p[1], y) {
          ReachesStep(g, x, p[1], y);
        } else {
          ReachesStep(g, x, p[1], a);
        }
      }
    }
  }

  /** An edge that does not close a cycle keeps the graph acyclic. */
  lemma LinkKeepsAcyclic<V>(g: Graph<V>, a: V, b: V)
    requires a in g && Acyclic(g) && !Reaches(g, b, a)
    ensures Acyclic(Linked(g, a, b))
  {
    var g' := Linked(g, a, b);
    forall x, z | Edge(g', x, z) && Reaches(g', z, x)
      ensures Reaches(g, z, x) || (Reaches(g, z, a) && Reaches(g, b, x))
    {
      var p :| Joins(g', p, z, x);
      OldOrThrough(g, a, b, p, z, x);
    }
    forall x, z | Edge(g', x, z) ensures !Reaches(g', z, x) {
      NoWayBack(g, a, b, x, z);
    }
  }

  lemma NoWayBack<V>(g: Graph<V>, a: V, b: V, x: V, z: V)
    requires a in g && Acyclic(g) && !Reaches(g, b, a) && Edge(Linked(g, a, b), x, z)
    ensures !Reaches(g, z, x) && !(Reaches(g, z, a) && Reaches(g, b, x))
  {
    if Edge(g, x, z) && Reaches(g, z, a) && Reaches(g, b, x) {
      ReachesStep(g, x, z, a);
      ReachesTransitive(g, b, x, a);
    }
  }

  ghost predicate Subgraph<V>(h: Graph<V>, g: Graph<V>) {
    forall v :: v in h ==> v in g && h[v] <= g[v]
  }

  lemma {:induction false} SubgraphPath<V>(h: Graph<V>, g: Graph<V>, p: seq<V>, a: V, b: V)
    requires Subgraph(h, g) && Joins(h, p, a, b)
    ensures Joins(g, p, a, b)
    decreases |p|
  {
    if |p| > 1 {
      SubgraphPath(h, g, p[1..], p[1], b);
    }
  }

  /** Dropping edges never creates a cycle. */
  lemma SubgraphAcyclic<V>(h: Graph<V>, g: Graph<V>)
    requires Subgraph(h, g) && Acyclic(g)
    ensures Acyclic(h)
  {
    forall a, b | Reaches(h, b, a) ensures Reaches(g, b, a) {
      var p :| Joins(h, p, b, a);
      SubgraphPath(h, g, p, b, a);
    }
    assert forall a, b :: Edge(h, a, b) ==> Edge(g, a, b);
  }

  // ----- long paths

  /** A path of at least `k` vertices starts at `d`. */
  ghost predicate Chain<V>(g: Graph<V>, d: V, k: nat) {
    exists p, x :: Joins(g, p, d, x) && |p| >= k
  }

  lemma ChainOfOne<V>(g: Graph<V>, d: V)
    ensures Chain(g, d, 1)
  {
    ReachesSelf(g, d);
  }

  lemma ChainGrows<V>(g: Graph<V>, a: V, b: V, k: nat)
    requires Edge(g, a, b) && Chain(g, b, k)
    ensures Chain(g, a, k + 1)
  {
    var p, x :| Joins(g, p, b, x) && |p| >= k;
    Prepend(g, a, b, p, x);
  }

  lemma {:induction false} PathHasNoRepeats<V>(g: Graph<V>, p: seq<V>, a: V, b: V)
    requires Acyclic(g) && Joins(g, p, a, b)
    ensures forall i, j :: 0 <= i < j < |p| ==> p[i] != p[j]
    decreases |p|
  {
    if |p| > 1 {
      PathHasNoRepeats(g, p[1..], p[1], b);
      forall j | 0 < j < |p| ensures p[0] != p[j] {
        PrefixReaches(g, p[1..], p[1], b, j - 1);
      }
      assert forall i :: 0 < i < |p| ==> p[i] == p[1..][i - 1];
    }
  }

  lemma {:induction false} PrefixReaches<V>(g: Graph<V>, p: seq<V>, a: V, b: V, i: nat)
    requires Joins(g, p, a, b) && i < |p|
    ensures Reaches(g, a, p[i])
    decreases |p|
  {
    ReachesSelf(g, a);
    if i > 0 {
      PrefixReaches(g, p[1..], p[1], b, i - 1);
      ReachesStep(g, a, p[1], p[i]);
    }
  }

  lemma {:induction false} DistinctFits<V>(p: seq<V>, s: set<V>)
    requires forall i :: 0 <= i < |p| ==> p[i] in s
    requires forall i, j :: 0 <= i < j < |p| ==> p[i] != p[j]
    ensures |p| <= |s|
  {
    if p != [] {
      var n := |p| - 1;
      DistinctFits(p[..n], s - {p[n]});
    }
  }

  /** In an acyclic graph no chain is longer than the number of vertices. */
  lemma ChainFits<V>(g: Graph<V>, d: V, k: nat)
    requires Within(g) && Acyclic(g) && d in g && Chain(g, d, k)
    ensures k <= |g.Keys|
  {
    var p, x :| Joins(g, p, d, x) && |p| >= k;
    PathStaysWithin(g, p, d, x);
    PathHasNoRepeats(g, p, d, x);
    DistinctFits(p, g.Keys);
  }
}
