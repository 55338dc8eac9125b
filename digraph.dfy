/**
 * util/digraph.py: a directed graph kept as two mirrored adjacency maps,
 * `fwd` (vertex to the targets of its edges) and `bck` (vertex to the
 * sources of its edges), with no empty adjacency set stored.
 *
 * Python's iteration order over a set or a dictionary is not part of the
 * model: every loop over one picks its next element arbitrarily, so what
 * is proved holds for every iteration order.
 */
module Digraphs {

  /** An adjacency map. */
  type Adj<T> = map<T, set<T>>

  /** The targets of x's entry, or none (dict lookup with a default). */
  function Out<T(!new)>(adj: Adj<T>, x: T): set<T>
  {
    if x in adj then adj[x] else {}
  }

  /** adj records the pair a -> b. */
  predicate Edge<T(!new)>(adj: Adj<T>, a: T, b: T)
  {
    a in adj && b in adj[a]
  }

  /** u -> v in fwd exactly when v -> u is recorded in bck. */
  ghost predicate Mirrored<T(!new)>(fwd: Adj<T>, bck: Adj<T>)
  {
    forall u, v :: Edge(fwd, u, v) <==> Edge(bck, v, u)
  }

  ghost predicate NoEmpty<T(!new)>(adj: Adj<T>)
  {
    forall u :: u in adj ==> adj[u] != {}
  }

  /** adj.setdefault(k, set()).add(e): exactly the pair k -> e is added. */
  function Insert<T(!new)>(adj: Adj<T>, k: T, e: T): (r: Adj<T>)
    ensures forall a, b :: Edge(r, a, b) <==> Edge(adj, a, b) || (a == k && b == e)
    ensures NoEmpty(adj) ==> NoEmpty(r)
  {
    adj[k := Out(adj, k) + {e}]
  }

  /**
   * adj[k].discard(e), then the entry deleted once it is empty: exactly
   * the pair k -> e goes, and no empty set is left behind.
   */
  function Discard<T(!new)>(adj: Adj<T>, k: T, e: T): (r: Adj<T>)
    requires k in adj
    ensures forall a, b :: Edge(r, a, b) <==> Edge(adj, a, b) && !(a == k && b == e)
    ensures NoEmpty(adj) ==> NoEmpty(r)
  {
    if adj[k] <= {e} then adj - {k} else adj[k := adj[k] - {e}]
  }

  /* ---------------- Paths ---------------- */

  /** A walk along the edges of adj: one or more vertices, each an adj-successor of the one before. */
  ghost predicate IsPath<T(!new)>(adj: Adj<T>, p: seq<T>)
  {
    |p| >= 1 && forall i :: 0 <= i < |p| - 1 ==> Edge(adj, p[i], p[i + 1])
  }

  /** b can be reached from a (in zero or more steps). */
  ghost predicate Reaches<T(!new)>(adj: Adj<T>, a: T, b: T)
  {
    exists p :: IsPath(adj, p) && p[0] == a && p[|p| - 1] == b
  }

  /** No walk of one or more steps returns to where it started. */
  ghost predicate Acyclic<T(!new)>(adj: Adj<T>)
  {
    forall p :: IsPath(adj, p) && |p| >= 2 ==> p[0] != p[|p| - 1]
  }

  lemma ReachesSelf<T(!new)>(adj: Adj<T>, a: T)
    ensures Reaches(adj, a, a)
  {
    assert IsPath(adj, [a]);
  }

  /** A reachable vertex's successors are reachable. */
  lemma ReachesStep<T(!new)>(adj: Adj<T>, a: T, b: T, c: T)
    requires Reaches(adj, a, b) && Edge(adj, b, c)
    ensures Reaches(adj, a, c)
  {
    var p :| IsPath(adj, p) && p[0] == a && p[|p| - 1] == b;
    var q := p + [c];
    assert forall i :: 0 <= i < |p| ==> q[i] == p[i];
    assert IsPath(adj, q);
  }

  /** What a successor reaches, its predecessor reaches. */
  lemma ReachesPrepend<T(!new)>(adj: Adj<T>, a: T, b: T, c: T)
    requires Edge(adj, a, b) && Reaches(adj, b, c)
    ensures Reaches(adj, a, c)
  {
    var p :| IsPath(adj, p) && p[0] == b && p[|p| - 1] == c;
    var q := [a] + p;
    assert forall i :: 1 <= i < |q| ==> q[i] == p[i - 1];
    assert IsPath(adj, q);
  }

  /** A set that holds a and every successor of its members holds everything a reaches. */
  lemma ClosedReach<T(!new)>(adj: Adj<T>, s: set<T>, a: T, b: T)
    requires a in s && forall u :: u in s && u in adj ==> adj[u] <= s
    requires Reaches(adj, a, b)
    ensures b in s
  {
    var p :| IsPath(adj, p) && p[0] == a && p[|p| - 1] == b;
    ClosedPath(adj, s, p, |p| - 1);
  }

  lemma {:induction false} ClosedPath<T(!new)>(adj: Adj<T>, s: set<T>, p: seq<T>, k: nat)
    requires IsPath(adj, p) && p[0] in s && forall u :: u in s && u in adj ==> adj[u] <= s
    requires k < |p|
    ensures p[k] in s
  {
    if k > 0 {
      ClosedPath(adj, s, p, k - 1);
      assert Edge(adj, p[k - 1], p[k]);
    }
  }

  /** On an acyclic graph nothing reaches its own predecessor through the edge back. */
  lemma NoWayBack<T(!new)>(adj: Adj<T>, u: T, w: T)
    requires Acyclic(adj) && Edge(adj, u, w)
    ensures !Reaches(adj, w, u)
  {
    forall q | IsPath(adj, q) && q[0] == w
      ensures q[|q| - 1] != u
    {
      var r := [u] + q;
      assert forall i :: 1 <= i < |r| ==> r[i] == q[i - 1];
      assert IsPath(adj, r);
    }
  }

  function Reverse<T(!new)>(p: seq<T>): (r: seq<T>)
    ensures |r| == |p| && forall i :: 0 <= i < |p| ==> r[i] == p[|p| - 1 - i]
  {
    if p == [] then [] else Reverse(p[1..]) + [p[0]]
  }

  /** A walk along one map, read backwards, is a walk along its mirror. */
  lemma ReversePath<T(!new)>(a: Adj<T>, b: Adj<T>, p: seq<T>)
    requires Mirrored(a, b) && IsPath(a, p)
    ensures IsPath(b, Reverse(p))
  {
    var r := Reverse(p);
    forall i | 0 <= i < |r| - 1
      ensures Edge(b, r[i], r[i + 1])
    {
      var j := |p| - 2 - i;
      assert Edge(a, p[j], p[j + 1]);
      assert r[i] == p[j + 1] && r[i + 1] == p[j];
    }
  }

  lemma MirroredSwap<T(!new)>(a: Adj<T>, b: Adj<T>)
    requires Mirrored(a, b)
    ensures Mirrored(b, a)
  {
  }

  /** Reaching along bck is being reached along fwd. */
  lemma ReachesMirror<T(!new)>(fwd: Adj<T>, bck: Adj<T>, x: T, y: T)
    requires Mirrored(fwd, bck)
    ensures Reaches(bck, x, y) <==> Reaches(fwd, y, x)
  {
    MirroredSwap(fwd, bck);
    if Reaches(bck, x, y) {
      var p :| IsPath(bck, p) && p[0] == x && p[|p| - 1] == y;
      ReversePath(bck, fwd, p);
      assert Reverse(p)[0] == y && Reverse(p)[|p| - 1] == x;
    }
    if Reaches(fwd, y, x) {
      var p :| IsPath(fwd, p) && p[0] == y && p[|p| - 1] == x;
      ReversePath(fwd, bck, p);
      assert Reverse(p)[0] == x && Reverse(p)[|p| - 1] == y;
    }
  }

  /** A graph without cycles has a mirror without cycles. */
  lemma AcyclicMirror<T(!new)>(fwd: Adj<T>, bck: Adj<T>)
    requires Mirrored(fwd, bck) && Acyclic(fwd)
    ensures Acyclic(bck)
  {
    MirroredSwap(fwd, bck);
    forall p | IsPath(bck, p) && |p| >= 2
      ensures p[0] != p[|p| - 1]
    {
      ReversePath(bck, fwd, p);
      var r := Reverse(p);
      assert r[0] == p[|p| - 1] && r[|r| - 1] == p[0];
    }
  }

  /* ---------------- Post-order ---------------- */

  ghost predicate Distinct<T(!new)>(s: seq<T>)
  {
    forall i, j :: 0 <= i < j < |s| ==> s[i] != s[j]
  }

  /**
   * What a depth-first post-order over adj keeps: each listed vertex's
   * successors are listed before it or reach it (the latter only through a
   * cycle).
   */
  ghost predicate PostOrdered<T(!new)>(adj: Adj<T>, order: seq<T>)
  {
    forall i, w :: 0 <= i < |order| && w in Out(adj, order[i]) ==> w in order[..i] || Reaches(adj, w, order[i])
  }

  /** A vertex whose successors are listed or reach it back may follow a post-order. */
  lemma AppendPostOrdered<T(!new)>(adj: Adj<T>, order: seq<T>, x: T)
    requires PostOrdered(adj, order)
    requires forall w :: w in Out(adj, x) ==> w in order || Reaches(adj, w, x)
    ensures PostOrdered(adj, order + [x])
  {
    var o := order + [x];
    forall k, w | 0 <= k < |o| && w in Out(adj, o[k])
      ensures w in o[..k] || Reaches(adj, w, o[k])
    {
      if k < |order| {
        assert o[..k] == order[..k];
      } else {
        assert o[..k] == order;
      }
    }
  }

  /**
   * On an acyclic graph a post-order lists every successor of a vertex
   * before the vertex.
   */
  lemma PostOrderedAcyclic<T(!new)>(adj: Adj<T>, order: seq<T>, i: nat, j: nat)
    requires PostOrdered(adj, order) && Distinct(order) && Acyclic(adj)
    requires i < |order| && j < |order| && Edge(adj, order[i], order[j])
    ensures j < i
  {
    var u, w := order[i], order[j];
    NoWayBack(adj, u, w);
    assert w in order[..i];
    var k :| 0 <= k < i && order[k] == w;
  }

  /* ---------------- The graph ---------------- */

  class Digraph<T(==,!new)> {
    var fwd: Adj<T>
    var bck: Adj<T>

    /** The class invariant: mirrored maps and no isolated vertex. */
    ghost predicate Valid()
      reads this
    {
      Mirrored(fwd, bck) && NoEmpty(fwd) && NoEmpty(bck)
    }

    predicate HasEdge(u: T, v: T)
      reads this
    {
      Edge(fwd, u, v)
    }

    /** An empty graph. */
    constructor()
      ensures Valid() && fwd == map[] && bck == map[]
      ensures forall u, v :: !HasEdge(u, v)
    {
      fwd := map[];
      bck := map[];
    }

    /** add_edge: the edge x -> y is added and no other edge changes. */
    method AddEdge(x: T, y: T)
      requires Valid()
      modifies this
      ensures Valid()
      ensures fwd == Insert(old(fwd), x, y) && bck == Insert(old(bck), y, x)
      ensures forall u, v :: HasEdge(u, v) <==> old(HasEdge(u, v)) || (u == x && v == y)
    {
      fwd := Insert(fwd, x, y);
      bck := Insert(bck, y, x);
    }

    /** edges_to: the sources of the edges into x; empty for a vertex with none. */
    function EdgesTo(x: T): (r: set<T>)
      requires Valid()
      reads this
      ensures forall u :: u in r <==> HasEdge(u, x)
      ensures x !in bck ==> r == {}
    {
      Out(bck, x)
    }

    /** edges_from: the targets of the edges out of x; empty for a vertex with none. */
    function EdgesFrom(x: T): (r: set<T>)
      requires Valid()
      reads this
      ensures forall v :: v in r <==> HasEdge(x, v)
      ensures x !in fwd ==> r == {}
    {
      Out(fwd, x)
    }

    /**
     * The depth-first search of subgraph_paths_from (forward: along adj,
     * adding x -> y) and of subgraph_paths_to (backward: along bck, adding
     * y -> x). It visits x unless seen, and adds the edges of every vertex
     * it visits; every vertex it visits is reachable from x, and every
     * successor of one is visited too.
     */
    method Collect(adj: Adj<T>, forward: bool, x: T, g: Digraph<T>, seen: set<T>) returns (seen': set<T>)
      requires g.Valid()
      modifies g
      decreases adj.Keys - seen
      ensures g.Valid()
      ensures seen <= seen' && x in seen'
      ensures forall u :: u in seen' - seen ==> Reaches(adj, x, u)
      ensures forall u :: u in seen' - seen && u in adj ==> adj[u] <= seen'
      ensures forall u, v :: g.HasEdge(u, v) <==> old(g.HasEdge(u, v)) || Added(adj, forward, seen' - seen, u, v)
    {
      if x in seen {
        return seen;
      }
      seen' := seen + {x};
      ReachesSelf(adj, x);
      if x in adj {
        var todo := adj[x];
        while todo != {}
          invariant todo <= adj[x] && seen + {x} <= seen'
          invariant forall w :: w in adj[x] - todo ==> w in seen'
          invariant forall u :: u in seen' - seen ==> Reaches(adj, x, u)
          invariant forall u :: u in seen' - seen && u in adj && u != x ==> adj[u] <= seen'
          invariant g.Valid()
          invariant forall u, v :: g.HasEdge(u, v) <==>
            old(g.HasEdge(u, v)) || Added(adj, forward, seen' - seen - {x}, u, v)
            || (if forward then u == x && v in adj[x] - todo else v == x && u in adj[x] - todo)
          decreases todo
        {
          var y :| y in todo;
          todo := todo - {y};
          if forward {
            g.AddEdge(x, y);
          } else {
            g.AddEdge(y, x);
          }
          ghost var before := seen';
          seen' := Collect(adj, forward, y, g, seen');
          forall u | u in seen' - before
            ensures Reaches(adj, x, u)
          {
            ReachesPrepend(adj, x, y, u);
          }
          assert seen' - seen - {x} == (before - seen - {x}) + (seen' - before);
        }
      }
    }

    /** The edges a visit of the vertices in s adds. */
    ghost predicate Added(adj: Adj<T>, forward: bool, s: set<T>, u: T, v: T)
    {
      if forward then u in s && Edge(adj, u, v) else v in s && Edge(adj, v, u)
    }

    /** subgraph_paths_from: exactly the edges whose source x reaches. */
    method SubgraphPathsFrom(x: T) returns (g: Digraph<T>)
      requires Valid()
      ensures fresh(g) && g.Valid()
      ensures forall u, v :: g.HasEdge(u, v) <==> HasEdge(u, v) && Reaches(fwd, x, u)
    {
      g := new Digraph();
      var seen := Collect(fwd, true, x, g, {});
      forall u, v | HasEdge(u, v) && Reaches(fwd, x, u)
        ensures u in seen
      {
        ClosedReach(fwd, seen, x, u);
      }
    }

    /** subgraph_paths_to: exactly the edges whose target reaches x. */
    method SubgraphPathsTo(x: T) returns (g: Digraph<T>)
      requires Valid()
      ensures fresh(g) && g.Valid()
      ensures forall u, v :: g.HasEdge(u, v) <==> HasEdge(u, v) && Reaches(fwd, v, x)
    {
      g := new Digraph();
      var seen := Collect(bck, false, x, g, {});
      forall u, v
        ensures g.HasEdge(u, v) <==> HasEdge(u, v) && Reaches(fwd, v, x)
      {
        ReachesMirror(fwd, bck, x, v);
        if HasEdge(u, v) && Reaches(bck, x, v) {
          ClosedReach(bck, seen, x, v);
        }
      }
    }

    /**
     * The depth-first search of the topological sorts: visits x unless
     * seen, its successors first, then lists x. `stack` holds the vertices
     * whose visit is in progress; each of them reaches x.
     */
    method PostOrder(adj: Adj<T>, ghost univ: set<T>, x: T, ghost stack: seq<T>, seen: set<T>, order: seq<T>)
      returns (seen': set<T>, order': seq<T>)
      requires x in univ && forall u :: u in adj ==> adj[u] <= univ
      requires forall v :: v in seen <==> v in order || v in stack
      requires Distinct(order) && PostOrdered(adj, order)
      requires forall s :: s in stack ==> Reaches(adj, s, x)
      decreases univ - seen
      ensures forall v :: v in seen' <==> v in order' || v in stack
      ensures Distinct(order') && PostOrdered(adj, order')
      ensures seen <= seen' && x in seen' && seen' <= seen + univ
      ensures order <= order' && forall v :: v in order' && v !in order ==> v !in seen
    {
      if x in seen {
        return seen, order;
      }
      seen', order' := seen + {x}, order;
      ReachesSelf(adj, x);
      if x in adj {
        var todo := adj[x];
        while todo != {}
          invariant todo <= adj[x]
          invariant forall w :: w in adj[x] - todo ==> w in seen'
          invariant forall v :: v in seen' <==> v in order' || v in stack + [x]
          invariant Distinct(order') && PostOrdered(adj, order')
          invariant seen + {x} <= seen' <= seen + univ
          invariant order <= order' && forall v :: v in order' && v !in order ==> v !in seen && v != x
          decreases todo
        {
          var y :| y in todo;
          todo := todo - {y};
          forall s | s in stack + [x]
            ensures Reaches(adj, s, y)
          {
            ReachesStep(adj, s, x, y);
          }
          seen', order' := PostOrder(adj, univ, y, stack + [x], seen', order');
        }
      }
      assert forall w :: w in Out(adj, x) ==> w in order' || Reaches(adj, w, x);
      AppendPostOrdered(adj, order', x);
      order' := order' + [x];
    }

    /** Visits each vertex of `roots` in turn. */
    method VisitAll(adj: Adj<T>, ghost univ: set<T>, roots: set<T>, seen: set<T>, order: seq<T>)
      returns (seen': set<T>, order': seq<T>)
      requires roots <= univ && forall u :: u in adj ==> adj[u] <= univ
      requires forall v :: v in seen <==> v in order
      requires Distinct(order) && PostOrdered(adj, order) && seen <= univ
      ensures forall v :: v in seen' <==> v in order'
      ensures Distinct(order') && PostOrdered(adj, order')
      ensures seen <= seen' && roots <= seen' && seen' <= univ
    {
      seen', order' := seen, order;
      var todo := roots;
      while todo != {}
        invariant todo <= roots && roots - todo <= seen' && seen <= seen' <= univ
        invariant forall v :: v in seen' <==> v in order'
        invariant Distinct(order') && PostOrdered(adj, order')
        decreases todo
      {
        var x :| x in todo;
        todo := todo - {x};
        seen', order' := PostOrder(adj, univ, x, [], seen', order');
      }
    }

    /** Every target of either map is a key of the other. */
    lemma MirrorKeys()
      requires Valid()
      ensures forall u :: u in fwd ==> fwd[u] <= bck.Keys
      ensures forall u :: u in bck ==> bck[u] <= fwd.Keys
    {
      forall u, v | u in fwd && v in fwd[u]
        ensures v in bck
      {
        assert Edge(fwd, u, v);
      }
      forall u, v | u in bck && v in bck[u]
        ensures v in fwd
      {
        assert Edge(bck, u, v);
      }
    }

    /**
     * topo_sort_fwd: every vertex with an edge, and every source, exactly
     * once; on an acyclic graph the source of each edge comes first.
     */
    method TopoSortFwd(sources: set<T>) returns (order: seq<T>)
      requires Valid()
      ensures Distinct(order)
      ensures forall v :: v in order <==> v in fwd || v in bck || v in sources
      ensures Acyclic(fwd) ==>
        forall i, j :: 0 <= i < |order| && 0 <= j < |order| && HasEdge(order[i], order[j]) ==> i < j
    {
      ghost var univ := fwd.Keys + bck.Keys + sources;
      MirrorKeys();
      var seen: set<T> := {};
      order := [];
      seen, order := VisitAll(bck, univ, fwd.Keys, seen, order);
      seen, order := VisitAll(bck, univ, bck.Keys, seen, order);
      seen, order := VisitAll(bck, univ, sources, seen, order);
      if Acyclic(fwd) {
        AcyclicMirror(fwd, bck);
        forall i, j | 0 <= i < |order| && 0 <= j < |order| && HasEdge(order[i], order[j])
          ensures i < j
        {
          PostOrderedAcyclic(bck, order, j, i);
        }
      }
    }

    /**
     * topo_sort_bck: every vertex with an edge, and every source, exactly
     * once; on an acyclic graph the target of each edge comes first.
     */
    method TopoSortBck(sources: set<T>) returns (order: seq<T>)
      requires Valid()
      ensures Distinct(order)
      ensures forall v :: v in order <==> v in fwd || v in bck || v in sources
      ensures Acyclic(fwd) ==>
        forall i, j :: 0 <= i < |order| && 0 <= j < |order| && HasEdge(order[i], order[j]) ==> j < i
    {
      ghost var univ := fwd.Keys + bck.Keys + sources;
      MirrorKeys();
      var seen: set<T> := {};
      order := [];
      seen, order := VisitAll(fwd, univ, bck.Keys, seen, order);
      seen, order := VisitAll(fwd, univ, fwd.Keys, seen, order);
      seen, order := VisitAll(fwd, univ, sources, seen, order);
      if Acyclic(fwd) {
        forall i, j | 0 <= i < |order| && 0 <= j < |order| && HasEdge(order[i], order[j])
          ensures j < i
        {
          PostOrderedAcyclic(fwd, order, i, j);
        }
      }
    }

    /**
     * del_edges_from: x loses every outgoing edge, disappears from every
     * backward set, and every other edge stays.
     */
    method DelEdgesFrom(x: T)
      requires Valid()
      modifies this
      ensures Valid()
      ensures fwd == old(fwd) - {x}
      ensures forall u, v :: HasEdge(u, v) <==> old(HasEdge(u, v)) && u != x
      ensures forall v :: v in bck ==> x !in bck[v]
    {
      if x in fwd {
        var todo := fwd[x];
        while todo != {}
          invariant fwd == old(fwd) && x in fwd && todo <= fwd[x] && NoEmpty(bck)
          invariant forall u, v :: Edge(bck, v, u) <==> Edge(fwd, u, v) && (u != x || v in todo)
          decreases todo
        {
          var y :| y in todo;
          assert HasEdge(x, y);
          todo := todo - {y};
          bck := Discard(bck, y, x);
        }
        fwd := fwd - {x};
      }
      forall v | v in bck
        ensures x !in bck[v]
      {
        assert !Edge(bck, v, x);
      }
    }

    /**
     * del_edges_to: x loses every incoming edge, disappears from every
     * forward set, and every other edge stays.
     */
    method DelEdgesTo(x: T)
      requires Valid()
      modifies this
      ensures Valid()
      ensures bck == old(bck) - {x}
      ensures forall u, v :: HasEdge(u, v) <==> old(HasEdge(u, v)) && v != x
      ensures forall u :: u in fwd ==> x !in fwd[u]
    {
      if x in bck {
        var todo := bck[x];
        while todo != {}
          invariant bck == old(bck) && x in bck && todo <= bck[x] && NoEmpty(fwd)
          invariant forall u, v :: Edge(fwd, u, v) <==> Edge(bck, v, u) && (v != x || u in todo)
          decreases todo
        {
          var y :| y in todo;
          assert Edge(bck, x, y);
          assert Edge(fwd, y, x);
          todo := todo - {y};
          fwd := Discard(fwd, y, x);
        }
        bck := bck - {x};
      }
      forall u | u in fwd
        ensures x !in fwd[u]
      {
        assert !Edge(fwd, u, x);
      }
    }
  }
}
