/** The destructive topological sort of the signal graph (Kahn's algorithm). */
module TopologicalSort {

  /** Each vertex with its list of successors, possibly repeated and possibly naming no vertex. */
  type Graph<T> = map<T, seq<T>>

  predicate Arc<T(==)>(g: Graph<T>, u: T, w: T) {
    u in g && w in g && w in g[u]
  }

  /** Each element of p is an arc away from the one before. */
  ghost predicate Linked<T>(g: Graph<T>, p: seq<T>) {
    |p| <= 1 || (Arc(g, p[0], p[1]) && Linked(g, p[1..]))
  }

  ghost predicate Cycle<T>(g: Graph<T>, p: seq<T>) {
    |p| >= 2 && p[0] == p[|p| - 1] && Linked(g, p)
  }

  ghost predicate HasCycle<T(!new)>(g: Graph<T>) {
    exists p :: Cycle(g, p)
  }

  /** Some edge names something that is not a vertex. */
  ghost predicate HasDanglingEdge<T(!new)>(g: Graph<T>) {
    exists u, e :: u in g && e in g[u] && e !in g
  }

  ghost predicate Distinct<T>(s: seq<T>) {
    forall i, j :: 0 <= i < j < |s| ==> s[i] != s[j]
  }

  /** Every vertex is listed, and every predecessor of a listed vertex is listed before it. */
  ghost predicate TopologicalOrder<T(!new)>(g: Graph<T>, order: seq<T>) {
    && Distinct(order)
    && (forall v :: v in g <==> v in order)
    && (forall b, u :: 0 <= b < |order| && Arc(g, u, order[b]) ==> u in order[..b])
  }

  /** The position at which x first occurs in s, or |s|. */
  ghost function Position<T>(s: seq<T>, x: T): (k: nat)
    ensures k <= |s| && (x in s <==> k < |s|) && (k < |s| ==> s[k] == x)
  {
    if s == [] then 0 else if s[0] == x then 0 else 1 + Position(s[1..], x)
  }

  lemma {:induction false} PositionBefore<T>(s: seq<T>, x: T, b: nat)
    requires b <= |s| && x in s[..b]
    ensures Position(s, x) < b
  {
    if s[0] != x {
      assert s[..b][1..] == s[1..][..b - 1];
      PositionBefore(s[1..], x, b - 1);
    }
  }

  lemma ArcClimbs<T(!new)>(g: Graph<T>, order: seq<T>, u: T, w: T)
    requires TopologicalOrder(g, order) && Arc(g, u, w)
    ensures Position(order, u) < Position(order, w)
  {
    var b := Position(order, w);
    assert order[b] == w;
    PositionBefore(order, u, b);
  }

  /** Positions in a topological order strictly grow along a walk. */
  lemma {:induction false} WalkClimbs<T(!new)>(g: Graph<T>, order: seq<T>, p: seq<T>)
    requires TopologicalOrder(g, order) && |p| >= 2 && Linked(g, p)
    ensures Position(order, p[0]) < Position(order, p[|p| - 1])
  {
    ArcClimbs(g, order, p[0], p[1]);
    if |p| > 2 {
      WalkClimbs(g, order, p[1..]);
    }
  }

  lemma OrderedHasNoCycle<T(!new)>(g: Graph<T>, order: seq<T>)
    requires TopologicalOrder(g, order)
    ensures !HasCycle(g)
  {
    if HasCycle(g) {
      var p :| Cycle(g, p);
      WalkClimbs(g, order, p);
    }
  }

  lemma {:induction false} LinkedPrefix<T>(g: Graph<T>, p: seq<T>, k: nat)
    requires Linked(g, p) && k <= |p|
    ensures Linked(g, p[..k])
  {
    if k > 1 {
      LinkedPrefix(g, p[1..], k - 1);
      assert p[..k][1..] == p[1..][..k - 1];
    }
  }

  lemma {:induction false} DistinctFits<T>(p: seq<T>, s: set<T>)
    requires Distinct(p) && forall k :: 0 <= k < |p| ==> p[k] in s
    ensures |p| <= |s|
  {
    if p != [] {
      var last := |p| - 1;
      DistinctFits(p[..last], s - {p[last]});
    }
  }

  ghost predicate Preceded<T(!new)>(g: Graph<T>, stuck: set<T>, w: T) {
    exists u :: u in stuck && Arc(g, u, w)
  }

  /** Walking backwards inside a finite set in which everybody has a predecessor must revisit somebody. */
  lemma {:induction false} BackwardWalkCloses<T(!new)>(g: Graph<T>, stuck: set<T>, p: seq<T>)
    requires forall w {:trigger Preceded(g, stuck, w)} :: w in stuck ==> Preceded(g, stuck, w)
    requires |p| >= 1 && Distinct(p) && (forall k :: 0 <= k < |p| ==> p[k] in stuck) && Linked(g, p)
    ensures HasCycle(g)
    decreases |stuck| - |p|
  {
    assert Preceded(g, stuck, p[0]);
    var u :| u in stuck && Arc(g, u, p[0]);
    var q := [u] + p;
    assert q[1..] == p;
    if u in p {
      var k :| 0 <= k < |p| && p[k] == u;
      LinkedPrefix(g, q, k + 2);
      assert Cycle(g, q[..k + 2]);
    } else {
      DistinctFits(q, stuck);
      BackwardWalkCloses(g, stuck, q);
    }
  }

  ghost predicate Incoming<T>(g: Graph<T>, v: T) {
    exists u :: u in g && v in g[u]
  }

  /** What holds of the two lists between edge removals, where `now` is what is left of the graph `orig`. */
  ghost predicate Progress<T(!new)>(orig: Graph<T>, now: Graph<T>, sorted: seq<T>, ready: seq<T>) {
    && now.Keys == orig.Keys
    && Distinct(sorted + ready)
    && (forall v :: v in sorted || v in ready ==> v in orig)
    && (forall v :: v in orig && v !in sorted ==> now[v] == orig[v])
    && (forall v :: v in orig ==> ((v in sorted || v in ready) <==> !Incoming(now, v)))
    && (forall b, u :: 0 <= b < |sorted| && Arc(orig, u, sorted[b]) ==> u in sorted[..b])
    && (forall v, u :: v in ready && Arc(orig, u, v) ==> u in sorted)
  }

  /** The edges of every sorted vertex other than the last are gone, or of every sorted one. */
  ghost predicate Emptied<T>(now: Graph<T>, done: seq<T>) {
    forall v :: v in done ==> v in now && now[v] == []
  }

  lemma MoveToSorted<T(!new)>(orig: Graph<T>, now: Graph<T>, sorted: seq<T>, ready: seq<T>)
    requires Progress(orig, now, sorted, ready) && ready != []
    ensures Progress(orig, now, sorted + [ready[0]], ready[1..])
    ensures ready[0] !in sorted
  {
    var n := ready[0];
    assert (sorted + [n]) + ready[1..] == sorted + ready;
    forall i | 0 <= i < |sorted| ensures sorted[i] != n {
      assert (sorted + ready)[i] != (sorted + ready)[|sorted|];
    }
    forall b, u | 0 <= b < |sorted + [n]| && Arc(orig, u, (sorted + [n])[b])
      ensures u in (sorted + [n])[..b]
    {
      assert (sorted + [n])[..b] == sorted[..b];
    }
  }

  /** The first edge of n goes to e: dropping it changes who points to e and to nobody else. */
  lemma DropEdge<T(!new)>(now: Graph<T>, n: T, v: T)
    requires n in now && now[n] != []
    ensures v != now[n][0] ==> (Incoming(now[n := now[n][1..]], v) <==> Incoming(now, v))
    ensures Incoming(now, now[n][0])
  {
    var after := now[n := now[n][1..]];
    if Incoming(now, v) && v != now[n][0] {
      var u :| u in now && v in now[u];
      assert u in after && v in after[u];
    }
    if Incoming(after, v) {
      var u :| u in after && v in after[u];
      assert u in now && v in now[u];
    }
    assert n in now && now[n][0] in now[n];
  }

  lemma RemoveEdge<T(!new)>(orig: Graph<T>, now: Graph<T>, sorted: seq<T>, ready: seq<T>, n: T)
    requires Progress(orig, now, sorted, ready) && n in sorted && now[n] != [] && now[n][0] in orig
    ensures
      var m := now[n][0];
      var after := now[n := now[n][1..]];
      Progress(orig, after, sorted, if Incoming(after, m) then ready else ready + [m])
  {
    var m := now[n][0];
    var after := now[n := now[n][1..]];
    forall v ensures v != m ==> (Incoming(after, v) <==> Incoming(now, v)) {
      DropEdge(now, n, v);
    }
    DropEdge(now, n, m);
    assert m !in sorted && m !in ready;
    if !Incoming(after, m) {
      assert (sorted + ready) + [m] == sorted + (ready + [m]);
      forall u | Arc(orig, u, m) ensures u in sorted {
        assert m !in after[u];
      }
    }
  }

  /** Once nothing is ready, every vertex outside the sorted list has a predecessor outside it. */
  lemma LeftoverIsCyclic<T(!new)>(orig: Graph<T>, now: Graph<T>, sorted: seq<T>, v: T)
    requires Progress(orig, now, sorted, []) && Emptied(now, sorted)
    requires v in now && now[v] != []
    ensures HasCycle(orig)
  {
    var stuck := set u | u in orig && u !in sorted;
    forall w | w in stuck ensures Preceded(orig, stuck, w) {
      StuckHasPredecessor(orig, now, sorted, stuck, w);
    }
    BackwardWalkCloses(orig, stuck, [v]);
  }

  /** A vertex that never became ready is still pointed at, by a vertex that never became ready. */
  lemma StuckHasPredecessor<T(!new)>(orig: Graph<T>, now: Graph<T>, sorted: seq<T>, stuck: set<T>, w: T)
    requires Progress(orig, now, sorted, []) && Emptied(now, sorted)
    requires stuck == (set u | u in orig && u !in sorted) && w in stuck
    ensures Preceded(orig, stuck, w)
  {
    assert Incoming(now, w);
    var u :| u in now && w in now[u];
    assert u in stuck && Arc(orig, u, w);
  }

  lemma NothingLeft<T(!new)>(orig: Graph<T>, now: Graph<T>, sorted: seq<T>)
    requires Progress(orig, now, sorted, []) && Emptied(now, sorted)
    requires forall v :: v in now ==> now[v] == []
    ensures TopologicalOrder(orig, sorted)
  {
    forall v | v in orig ensures v in sorted {
      assert !Incoming(now, v);
    }
    assert sorted + [] == sorted;
  }

  /** Every edge out of a fully processed vertex has a target. */
  ghost predicate NoDangling<T(!new)>(orig: Graph<T>, done: seq<T>) {
    forall u, e :: u in done && u in orig && e in orig[u] ==> e in orig
  }

  ghost function Elements<T>(s: seq<T>): set<T> {
    set x | x in s
  }

  datatype Outcome = Sorted | Cyclic | MissingVertex

  class Sorter<T(==,!new)> {
    const vertices: seq<T>
    var edges: Graph<T>
    var ready: seq<T>   // the list S
    var sorted: seq<T>  // the list L

    constructor (vertices: seq<T>, edges: Graph<T>)
      ensures this.vertices == vertices && this.edges == edges && ready == [] && sorted == []
    {
      this.vertices := vertices;
      this.edges := edges;
      ready, sorted := [], [];
    }

    /** The vertex list and the edge table speak of the same vertices, each once. */
    ghost predicate WellFormed()
      reads this
    {
      Distinct(vertices) && forall v :: v in vertices <==> v in edges
    }

    method HasIncomingEdges(v: T) returns (r: bool)
      requires WellFormed()
      ensures r <==> Incoming(edges, v)
    {
      for i := 0 to |vertices|
        invariant forall k :: 0 <= k < i ==> v !in edges[vertices[k]]
      {
        var out := edges[vertices[i]];
        for j := 0 to |out|
          invariant forall k :: 0 <= k < j ==> out[k] != v
        {
          if out[j] == v {
            return true;
          }
        }
      }
      return false;
    }

    method GetVertexFromEdge(e: T) returns (found: bool)
      requires WellFormed()
      ensures found <==> e in edges
    {
      for i := 0 to |vertices|
        invariant forall k :: 0 <= k < i ==> vertices[k] != e
      {
        if e == vertices[i] {
          return true;
        }
      }
      return false;
    }

    method HasEdges() returns (r: bool)
      requires WellFormed()
      ensures r <==> exists v :: v in edges && edges[v] != []
    {
      for i := 0 to |vertices|
        invariant forall k :: 0 <= k < i ==> edges[vertices[k]] == []
      {
        if edges[vertices[i]] != [] {
          return true;
        }
      }
      return false;
    }

    /** The first loop: queue every vertex without incoming edges. */
    method Preload()
      requires WellFormed() && ready == [] && sorted == []
      modifies this`ready
      ensures Progress(edges, edges, sorted, ready)
    {
      for i := 0 to |vertices|
        invariant forall v :: v in ready <==> v in vertices[..i] && !Incoming(edges, v)
        invariant Distinct(ready)
      {
        var v := vertices[i];
        var incoming := HasIncomingEdges(v);
        if !incoming {
          assert v !in vertices[..i];
          ready := ready + [v];
        }
      }
      assert vertices[..|vertices|] == vertices;
      assert sorted + ready == ready;
    }

    /** The inner loop: remove the edges of n one by one, queueing each target that loses its last incoming edge. */
    method RemoveEdges(n: T, ghost orig: Graph<T>) returns (valid: bool)
      requires WellFormed() && Progress(orig, edges, sorted, ready)
      requires n in sorted && edges[n] == orig[n]
      modifies this`edges, this`ready
      ensures !valid ==> exists e :: e in orig[n] && e !in orig
      ensures valid ==> WellFormed() && Progress(orig, edges, sorted, ready)
      ensures valid ==> edges[n] == [] && forall v :: v in orig && v != n ==> edges[v] == old(edges)[v]
      ensures valid ==> forall e :: e in orig[n] ==> e in orig
    {
      while edges[n] != []
        invariant WellFormed() && Progress(orig, edges, sorted, ready)
        invariant forall v :: v in orig && v != n ==> edges[v] == old(edges)[v]
        invariant forall e :: e in orig[n] ==> e in edges[n] || e in orig
        invariant forall e :: e in edges[n] ==> e in orig[n]
        decreases |edges[n]|
      {
        var e := edges[n][0];
        var found := GetVertexFromEdge(e);
        if !found {
          return false;
        }
        RemoveEdge(orig, edges, sorted, ready, n);
        edges := edges[n := edges[n][1..]];
        var incoming := HasIncomingEdges(e);
        if !incoming {
          ready := ready + [e];
        }
      }
      return true;
    }

    /** One round of the outer loop: the front of the ready list becomes the end of the sorted one. */
    method ProcessFront(ghost orig: Graph<T>) returns (valid: bool)
      requires WellFormed() && Progress(orig, edges, sorted, ready) && ready != []
      requires Emptied(edges, sorted) && NoDangling(orig, sorted)
      modifies this
      ensures !valid ==> HasDanglingEdge(orig)
      ensures valid ==> WellFormed() && Progress(orig, edges, sorted, ready)
      ensures valid ==> Emptied(edges, sorted) && NoDangling(orig, sorted)
      ensures valid ==> orig.Keys - Elements(sorted) < orig.Keys - Elements(old(sorted))
    {
      var n := ready[0];
      MoveToSorted(orig, edges, sorted, ready);
      ready := ready[1..];
      sorted := sorted + [n];
      assert n in Elements(sorted) && n !in Elements(old(sorted));
      valid := RemoveEdges(n, orig);
    }

    /** Sorted iff every edge has a target and there is no cycle; `sorted` is then a topological order of the whole graph. */
    method Sort() returns (r: Outcome)
      requires WellFormed() && ready == [] && sorted == []
      modifies this
      ensures r == Sorted <==> !HasCycle(old(edges)) && !HasDanglingEdge(old(edges))
      ensures r == Cyclic ==> HasCycle(old(edges))
      ensures r == MissingVertex ==> HasDanglingEdge(old(edges))
      ensures r == Sorted ==> TopologicalOrder(old(edges), sorted)
    {
      ghost var orig := edges;
      Preload();
      while ready != []
        invariant WellFormed() && Progress(orig, edges, sorted, ready) && Emptied(edges, sorted)
        invariant NoDangling(orig, sorted)
        decreases orig.Keys - Elements(sorted)
      {
        var valid := ProcessFront(orig);
        if !valid {
          return MissingVertex;
        }
      }
      var leftover := HasEdges();
      if leftover {
        var v :| v in edges && edges[v] != [];
        LeftoverIsCyclic(orig, edges, sorted, v);
        return Cyclic;
      }
      NothingLeft(orig, edges, sorted);
      OrderedHasNoCycle(orig, sorted);
      return Sorted;
    }
  }
}
