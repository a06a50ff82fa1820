/** Registration and sorting: from declared signals to the ordered system that the calculator runs. */
module SignalTable {
  import opened Signals
  import opened Delivery
  import opened Epochs
  import opened Calculator
  import TS = TopologicalSort

  datatype InputDecl = InputDecl(id: int, back: nat, fwd: nat)

  datatype Decl = Decl(id: int, inputs: seq<InputDecl>, f: seq<seq<Value>> -> Value)

  function Ids(calcs: seq<Decl>): (ids: seq<int>)
    ensures |ids| == |calcs| && forall j :: 0 <= j < |ids| ==> ids[j] == calcs[j].id
  {
    seq(|calcs|, j requires 0 <= j < |calcs| => calcs[j].id)
  }

  predicate ReadsId(c: Decl, id: int) {
    exists i :: 0 <= i < |c.inputs| && c.inputs[i].id == id
  }

  /** No two signals share an id, and every input names a signal. */
  ghost predicate Registered(raws: seq<int>, calcs: seq<Decl>) {
    && TS.Distinct(raws + Ids(calcs))
    && forall j, i :: 0 <= j < |calcs| && 0 <= i < |calcs[j].inputs| ==> calcs[j].inputs[i].id in raws + Ids(calcs)
  }

  /** An arc leads from every signal to each other signal that reads it. */
  ghost predicate IsDependencyGraph(g: TS.Graph<int>, raws: seq<int>, calcs: seq<Decl>) {
    && (forall v :: v in g <==> v in raws + Ids(calcs))
    && (forall u, w :: u in g ==> (w in g[u] <==> IsReader(calcs, u, w, |calcs|)))
  }

  /** Among the first k calculated signals, w reads u and is not u. */
  ghost predicate IsReader(calcs: seq<Decl>, u: int, w: int, k: int)
    requires k <= |calcs|
  {
    w != u && exists j :: 0 <= j < k && calcs[j].id == w && ReadsId(calcs[j], u)
  }

  /** Signals in an order in which each one's calculated inputs, other than itself, come before it. */
  ghost predicate InputsFirst(order: seq<Decl>, calcs: seq<Decl>) {
    forall b, x :: 0 <= b < |order| && ReadsId(order[b], x) && x != order[b].id && x in Ids(calcs) ==> x in Ids(order[..b])
  }

  method Readers(u: int, calcs: seq<Decl>) returns (edges: seq<int>)
    ensures forall w :: w in edges <==> IsReader(calcs, u, w, |calcs|)
  {
    edges := [];
    for j := 0 to |calcs|
      invariant forall w :: w in edges <==> IsReader(calcs, u, w, j)
    {
      if calcs[j].id != u && ReadsId(calcs[j], u) {
        edges := edges + [calcs[j].id];
      }
    }
  }

  method BuildGraph(raws: seq<int>, calcs: seq<Decl>) returns (g: TS.Graph<int>)
    ensures IsDependencyGraph(g, raws, calcs)
  {
    var vertices := raws + Ids(calcs);
    g := map[];
    for k := 0 to |vertices|
      invariant forall v :: v in g <==> v in vertices[..k]
      invariant forall u, w :: u in g ==> (w in g[u] <==> IsReader(calcs, u, w, |calcs|))
    {
      var edges := Readers(vertices[k], calcs);
      g := g[vertices[k] := edges];
    }
    assert vertices[..|vertices|] == vertices;
  }

  /** The first declaration with that id. */
  method FindDecl(id: int, calcs: seq<Decl>) returns (found: bool, j: nat)
    ensures found <==> id in Ids(calcs)
    ensures found ==> j < |calcs| && calcs[j].id == id
  {
    j := 0;
    while j < |calcs|
      invariant j <= |calcs| && forall k :: 0 <= k < j ==> calcs[k].id != id
    {
      if calcs[j].id == id {
        return true, j;
      }
      j := j + 1;
    }
    found := false;
  }

  /** Keeps the calculated signals of a sorted list of all signals. */
  method KeepCalcs(sorted: seq<int>, raws: seq<int>, calcs: seq<Decl>, ghost g: TS.Graph<int>) returns (order: seq<Decl>)
    requires IsDependencyGraph(g, raws, calcs) && TS.TopologicalOrder(g, sorted)
    ensures forall b :: 0 <= b < |order| ==> order[b] in calcs
    ensures TS.Distinct(Ids(order)) && forall id :: id in Ids(calcs) <==> id in Ids(order)
    ensures InputsFirst(order, calcs)
  {
    order := [];
    for q := 0 to |sorted|
      invariant forall b :: 0 <= b < |order| ==> order[b] in calcs
      invariant TS.Distinct(Ids(order)) && forall id :: id in Ids(order) <==> id in sorted[..q] && id in Ids(calcs)
      invariant InputsFirst(order, calcs)
    {
      var found, j := FindDecl(sorted[q], calcs);
      if found {
        var c := calcs[j];
        assert sorted[q] !in sorted[..q];
        assert Ids(order + [c]) == Ids(order) + [c.id];
        forall x | ReadsId(c, x) && x != c.id && x in Ids(calcs)
          ensures x in Ids(order)
        {
          assert IsReader(calcs, x, c.id, |calcs|);
          assert TS.Arc(g, x, sorted[q]);
        }
        forall b, x | 0 <= b < |order + [c]| && ReadsId((order + [c])[b], x) && x != (order + [c])[b].id && x in Ids(calcs)
          ensures x in Ids((order + [c])[..b])
        {
          if b < |order| {
            assert (order + [c])[..b] == order[..b];
          } else {
            assert (order + [c])[..b] == order;
          }
        }
        order := order + [c];
      }
    }
    assert sorted[..|sorted|] == sorted;
  }

  lemma SameLength(order: seq<Decl>, calcs: seq<Decl>)
    requires TS.Distinct(Ids(order)) && TS.Distinct(Ids(calcs)) && forall id :: id in Ids(calcs) <==> id in Ids(order)
    ensures |order| == |calcs|
  {
    var all := TS.Elements(Ids(calcs));
    assert all == TS.Elements(Ids(order));
    TS.DistinctFits(Ids(order), TS.Elements(Ids(order)));
    TS.DistinctFits(Ids(calcs), all);
    DistinctFills(Ids(order));
    DistinctFills(Ids(calcs));
  }

  lemma {:induction false} DistinctFills(s: seq<int>)
    ensures |TS.Elements(s)| <= |s|
  {
    if s != [] {
      var last := |s| - 1;
      DistinctFills(s[..last]);
      assert TS.Elements(s) == TS.Elements(s[..last]) + {s[last]};
    }
  }

  /**
   * Sorts the calculated signals. It succeeds unless distinct signals read each other in a circle, and then puts every
   * declaration once, after the signals it reads. A signal that lists itself is not noticed.
   */
  method SortSignals(raws: seq<int>, calcs: seq<Decl>) returns (ok: bool, order: seq<Decl>, ghost g: TS.Graph<int>)
    requires Registered(raws, calcs)
    ensures IsDependencyGraph(g, raws, calcs) && (ok <==> !TS.HasCycle(g))
    ensures ok ==> Rearranges(order, calcs)
    ensures ok ==> InputsFirst(order, calcs)
  {
    var edges := BuildGraph(raws, calcs);
    g := edges;
    order := [];
    assert !TS.HasDanglingEdge(edges) by {
      forall u, e | u in edges && e in edges[u] ensures e in edges {
        assert IsReader(calcs, u, e, |calcs|);
        var j :| 0 <= j < |calcs| && calcs[j].id == e;
        assert Ids(calcs)[j] == e;
      }
    }
    var sorter := new TS.Sorter(raws + Ids(calcs), edges);
    assert sorter.WellFormed() by {
      assert sorter.vertices == raws + Ids(calcs) && sorter.edges == edges;
      forall v ensures v in sorter.vertices <==> v in sorter.edges {
        assert v in raws + Ids(calcs) <==> v in edges;
      }
    }
    var outcome := sorter.Sort();
    ok := outcome == TS.Sorted;
    if ok {
      order := KeepCalcs(sorter.sorted, raws, calcs, edges);
      assert TS.Distinct(Ids(calcs)) by {
        forall i, j | 0 <= i < j < |calcs| ensures Ids(calcs)[i] != Ids(calcs)[j] {
          assert (raws + Ids(calcs))[|raws| + i] != (raws + Ids(calcs))[|raws| + j];
        }
      }
      SameLength(order, calcs);
    }
  }

  /** The result index of a signal: raw signals first, then the sorted table. */
  ghost predicate IsResultIndex(raws: seq<int>, order: seq<Decl>, id: int, s: nat) {
    s < |raws| + |order| && (raws + Ids(order))[s] == id
  }

  /** The first n calculated signals of a sorted table, with every input by its result index. */
  ghost predicate ResolvedUpTo(raws: seq<int>, order: seq<Decl>, calcs: seq<Calc>, n: nat) {
    && |calcs| == n <= |order|
    && forall j :: 0 <= j < n ==>
         && calcs[j].f == order[j].f && |calcs[j].inputs| == |order[j].inputs|
         && forall i :: 0 <= i < |order[j].inputs| ==>
              && IsResultIndex(raws, order, order[j].inputs[i].id, calcs[j].inputs[i].source)
              && calcs[j].inputs[i].back == order[j].inputs[i].back
              && calcs[j].inputs[i].fwd == order[j].inputs[i].fwd
  }

  /** The system a sorted table stands for. */
  ghost predicate Resolves(raws: seq<int>, order: seq<Decl>, sys: System) {
    sys.raws == |raws| && ResolvedUpTo(raws, order, sys.calcs, |order|)
  }

  method ResultIndex(raws: seq<int>, order: seq<Decl>, id: int) returns (s: nat)
    requires id in raws + Ids(order)
    ensures IsResultIndex(raws, order, id, s)
  {
    var ids := raws + Ids(order);
    s := 0;
    while ids[s] != id
      invariant s < |ids| && exists k :: s <= k < |ids| && ids[k] == id
      decreases |ids| - s
    {
      s := s + 1;
    }
  }

  method Resolve(raws: seq<int>, order: seq<Decl>) returns (sys: System)
    requires forall j, i :: 0 <= j < |order| && 0 <= i < |order[j].inputs| ==> order[j].inputs[i].id in raws + Ids(order)
    ensures Resolves(raws, order, sys)
  {
    var calcs: seq<Calc> := [];
    for j := 0 to |order|
      invariant ResolvedUpTo(raws, order, calcs, j)
    {
      var inputs: seq<Input> := [];
      for i := 0 to |order[j].inputs|
        invariant |inputs| == i
        invariant forall k :: 0 <= k < i ==>
                    && IsResultIndex(raws, order, order[j].inputs[k].id, inputs[k].source)
                    && inputs[k].back == order[j].inputs[k].back && inputs[k].fwd == order[j].inputs[k].fwd
      {
        var s := ResultIndex(raws, order, order[j].inputs[i].id);
        inputs := inputs + [Input(s, order[j].inputs[i].back, order[j].inputs[i].fwd)];
      }
      calcs := calcs + [Calc(inputs, order[j].f)];
    }
    sys := System(|raws|, calcs);
  }

  ghost predicate NoSelfInput(calcs: seq<Decl>) {
    forall j :: 0 <= j < |calcs| ==> !ReadsId(calcs[j], calcs[j].id)
  }

  /** The order is that of the same declarations. */
  ghost predicate Rearranges(order: seq<Decl>, calcs: seq<Decl>) {
    && |order| == |calcs| && TS.Distinct(Ids(order))
    && (forall b :: 0 <= b < |order| ==> order[b] in calcs)
    && (forall id :: id in Ids(calcs) <==> id in Ids(order))
  }

  lemma RearrangedIds(raws: seq<int>, calcs: seq<Decl>, order: seq<Decl>)
    requires Registered(raws, calcs) && Rearranges(order, calcs)
    ensures TS.Distinct(raws + Ids(order))
    ensures forall j, i :: 0 <= j < |order| && 0 <= i < |order[j].inputs| ==> order[j].inputs[i].id in raws + Ids(order)
    ensures forall c :: c in calcs ==> c in order
  {
    var all := raws + Ids(calcs);
    forall i, j | 0 <= i < j < |raws + Ids(order)|
      ensures (raws + Ids(order))[i] != (raws + Ids(order))[j]
    {
      if i < |raws| <= j {
        var id := Ids(order)[j - |raws|];
        assert id in Ids(calcs);
        var k :| 0 <= k < |calcs| && Ids(calcs)[k] == id;
        assert all[i] != all[|raws| + k];
      } else if j < |raws| {
        assert all[i] != all[j];
      } else {
        assert Ids(order)[i - |raws|] != Ids(order)[j - |raws|];
      }
    }
    forall c | c in calcs ensures c in order {
      var k :| 0 <= k < |calcs| && calcs[k] == c;
      assert Ids(calcs)[k] == c.id && c.id in Ids(calcs);
      var b :| 0 <= b < |order| && Ids(order)[b] == c.id;
      var k' :| 0 <= k' < |calcs| && calcs[k'] == order[b];
      assert all[|raws| + k] == all[|raws| + k'];
    }
  }

  /** One input comes earlier in the table exactly when it is not the signal itself. */
  lemma InputIsEarlier(raws: seq<int>, calcs: seq<Decl>, order: seq<Decl>, sys: System, j: nat, i: nat)
    requires TS.Distinct(raws + Ids(order)) && (forall id :: id in Ids(calcs) <==> id in Ids(order))
    requires InputsFirst(order, calcs) && Resolves(raws, order, sys)
    requires j < |order| && i < |order[j].inputs|
    ensures sys.calcs[j].inputs[i].source < |raws| + j <==> order[j].inputs[i].id != order[j].id
    ensures sys.calcs[j].inputs[i].source < |raws| + |order|
  {
    var ids := raws + Ids(order);
    var x, s := order[j].inputs[i].id, sys.calcs[j].inputs[i].source;
    assert IsResultIndex(raws, order, x, s);
    assert ReadsId(order[j], x);
    assert ids[s] == x && ids[|raws| + j] == order[j].id;
    if x != order[j].id && s >= |raws| {
      assert Ids(order)[s - |raws|] == x && x in Ids(calcs);
      var k :| 0 <= k < j && Ids(order[..j])[k] == x;
      assert ids[|raws| + k] == x;
    }
  }

  lemma OrderedIfNoSelfInput(raws: seq<int>, calcs: seq<Decl>, order: seq<Decl>, sys: System)
    requires Registered(raws, calcs) && Rearranges(order, calcs) && InputsFirst(order, calcs) && Resolves(raws, order, sys)
    requires NoSelfInput(calcs)
    ensures sys.Ordered()
  {
    RearrangedIds(raws, calcs, order);
    forall s: nat, i: nat | s < sys.Size() && i < |sys.Inputs(s)| ensures sys.Inputs(s)[i].source < s {
      var j := s - sys.raws;
      assert order[j] in calcs;
      InputIsEarlier(raws, calcs, order, sys, j, i);
      assert ReadsId(order[j], order[j].inputs[i].id);
    }
  }

  lemma UnorderedIfSelfInput(raws: seq<int>, calcs: seq<Decl>, order: seq<Decl>, sys: System, k: nat)
    requires Registered(raws, calcs) && Rearranges(order, calcs) && InputsFirst(order, calcs) && Resolves(raws, order, sys)
    requires k < |calcs| && ReadsId(calcs[k], calcs[k].id)
    ensures !sys.Ordered()
  {
    RearrangedIds(raws, calcs, order);
    var i :| 0 <= i < |calcs[k].inputs| && calcs[k].inputs[i].id == calcs[k].id;
    assert calcs[k] in order;
    var j :| 0 <= j < |order| && order[j] == calcs[k];
    InputIsEarlier(raws, calcs, order, sys, j, i);
    LateInput(sys, j, i);
  }

  lemma LateInput(sys: System, j: nat, i: nat)
    requires j < |sys.calcs| && i < |sys.calcs[j].inputs| && sys.calcs[j].inputs[i].source >= sys.raws + j
    ensures !sys.Ordered()
  {
    assert sys.Inputs(sys.raws + j) == sys.calcs[j].inputs;
  }

  /** Sorting orders the system exactly when no signal lists itself. */
  lemma SortedIsOrdered(raws: seq<int>, calcs: seq<Decl>, order: seq<Decl>, sys: System)
    requires Registered(raws, calcs) && Rearranges(order, calcs) && InputsFirst(order, calcs) && Resolves(raws, order, sys)
    ensures sys.Ordered() <==> NoSelfInput(calcs)
  {
    if NoSelfInput(calcs) {
      OrderedIfNoSelfInput(raws, calcs, order, sys);
    } else {
      var k :| 0 <= k < |calcs| && ReadsId(calcs[k], calcs[k].id);
      UnorderedIfSelfInput(raws, calcs, order, sys, k);
    }
  }

  /** Such signals exist: one that lists itself makes no cycle for the sort, and its table cannot be evaluated. */
  lemma SelfReaderSorts(f: seq<seq<Value>> -> Value, g: TS.Graph<int>, sys: System)
    requires var calcs := [Decl(2, [InputDecl(2, 1, 0)], f)];
      IsDependencyGraph(g, [1], calcs) && Resolves([1], calcs, sys)
    ensures var calcs := [Decl(2, [InputDecl(2, 1, 0)], f)];
      && Registered([1], calcs) && Rearranges(calcs, calcs) && InputsFirst(calcs, calcs)
      && !TS.HasCycle(g) && !NoSelfInput(calcs) && !sys.Ordered()
  {
    var calcs := [Decl(2, [InputDecl(2, 1, 0)], f)];
    assert Ids(calcs) == [2];
    assert calcs[0].inputs[0].id == 2;
    assert ReadsId(calcs[0], 2);
    assert [1] + Ids(calcs) == [1, 2];
    forall u, w | u in g ensures w !in g[u] {
      assert !IsReader(calcs, u, w, 1);
    }
    assert forall u, w :: !TS.Arc(g, u, w);
    assert TS.TopologicalOrder(g, [1, 2]);
    TS.OrderedHasNoCycle(g, [1, 2]);
    SortedIsOrdered([1], calcs, calcs, sys);
  }

  /** What a declared signal sees at index n: for each input one window of the values of the signal with the input's id. */
  ghost predicate SeesDeclared(
    raws: seq<int>, order: seq<Decl>, sys: System, hist: History, c: Decl, n: int, w: seq<seq<Value>>)
    requires sys.Ordered() && Complete(sys, hist) && sys.Size() == |raws| + |order|
  {
    |w| == |c.inputs| && forall i, s: nat {:trigger IsResultIndex(raws, order, c.inputs[i].id, s)} ::
      0 <= i < |c.inputs| && IsResultIndex(raws, order, c.inputs[i].id, s) ==>
        IsWindow(sys, hist, Input(s, c.inputs[i].back, c.inputs[i].fwd), n, w[i])
  }

  /** The table means what was declared: the value of a signal is its own calculation, on its own windows of the signals it names. */
  lemma TableMeansDeclarations(
      raws: seq<int>, order: seq<Decl>, sys: System, hist: History, j: nat, n: int, w: seq<seq<Value>>)
    requires sys.Ordered() && Complete(sys, hist) && Resolves(raws, order, sys) && j < |order|
    requires SeesDeclared(raws, order, sys, hist, order[j], n, w)
    ensures Val(sys, hist, sys.raws + j, n) == Sanitize(order[j].f(w))
  {
    var s, ins := sys.raws + j, sys.calcs[j].inputs;
    assert sys.Inputs(s) == ins;
    forall i | 0 <= i < |ins| ensures IsWindow(sys, hist, ins[i], n, w[i]) {
      var input := order[j].inputs[i];
      assert IsResultIndex(raws, order, input.id, ins[i].source) && ins[i].back == input.back && ins[i].fwd == input.fwd;
      assert ins[i] == Input(ins[i].source, input.back, input.fwd);
    }
    ValueIsCalculated(sys, hist, s, n, w);
  }

  /** Finishes initialisation: sorts the table and starts the calculator on it, unless the signals read each other in a circle. */
  method InitCalculator(raws: seq<int>, calcs: seq<Decl>) returns (c: Calculator?, ghost order: seq<Decl>, ghost g: TS.Graph<int>)
    requires Registered(raws, calcs) && NoSelfInput(calcs)
    ensures IsDependencyGraph(g, raws, calcs) && (c == null <==> TS.HasCycle(g))
    ensures c != null ==> fresh(c) && c.Valid() && Rearranges(order, calcs) && Resolves(raws, order, c.sys)
    ensures c != null ==> c.Current() == Epoch([], Outbox([], [], []))
  {
    var ok, table, graph := SortSignals(raws, calcs);
    order, g := table, graph;
    if !ok {
      return null, order, g;
    }
    RearrangedIds(raws, calcs, table);
    var sys := Resolve(raws, table);
    SortedIsOrdered(raws, calcs, table, sys);
    c := new Calculator(sys);
  }
}
