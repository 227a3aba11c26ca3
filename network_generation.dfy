/** The topology generator: a directed ring on N nodes plus the initial per-node states. */
module NetworkGeneration {
  import opened Errors

  /** A directed edge src -> dst between node indices. */
  datatype Edge = Edge(src: nat, dst: nat)

  /** The `initial` argument of generate. */
  datatype Initial =
    | Fraction(numOnes: nat)       // a number; numOnes stands for int(N * initial)
    | StateList(states: seq<int>)  // a list, used verbatim when its length is N
    | Unsupported                  // any other value

  /** Every edge joins two of the nodes 0 .. n-1. */
  predicate EdgesWithin(edges: seq<Edge>, n: nat) {
    forall k :: 0 <= k < |edges| ==> edges[k].src < n && edges[k].dst < n
  }

  /** The first k edges the ring construction adds on n nodes: i -> (i + 1) mod n for i < k, each between two of the n
      nodes. */
  function RingPrefix(n: nat, k: nat): (r: seq<Edge>)
    requires k <= n
    ensures |r| == k && EdgesWithin(r, n)
  {
    seq(k, i requires 0 <= i < k => Edge(i, (i + 1) % n))
  }

  /** All n edges of the ring on n nodes. */
  function RingEdges(n: nat): seq<Edge> {
    RingPrefix(n, n)
  }

  /** Euclidean remainder of a value within one period of [0, n). */
  lemma ModNear(x: int, n: int)
    requires n > 0 && 0 - n <= x < 2 * n
    ensures x % n == if x < 0 then x + n else if x < n then x else x - n
  {
    var q, m := x / n, x % n;
    assert x == n * q + m && 0 <= m < n;
    if x < 0 {
      assert q == -1;
    } else if x < n {
      assert q == 0;
    } else {
      assert q == 1;
    }
  }

  /** The node whose ring edge enters v. */
  function RingPredecessor(n: nat, v: nat): (u: nat)
    requires v < n
    ensures u < n && (u + 1) % n == v
    ensures u == (v - 1) % n
  {
    ModNear(v - 1, n);
    var u := if v == 0 then n - 1 else v - 1;
    ModNear(u + 1, n);
    u
  }

  /** The sources of the edges that enter v, in edge order. */
  function Predecessors(edges: seq<Edge>, v: nat): (p: seq<nat>)
    ensures forall j :: 0 <= j < |p| ==> Edge(p[j], v) in edges
  {
    if |edges| == 0 then []
    else
      var last := edges[|edges| - 1];
      Predecessors(edges[..|edges| - 1], v) + (if last.dst == v then [last.src] else [])
  }

  /** The targets of the edges that leave v, in edge order. */
  function Successors(edges: seq<Edge>, v: nat): (q: seq<nat>)
    ensures forall j :: 0 <= j < |q| ==> Edge(v, q[j]) in edges
  {
    if |edges| == 0 then []
    else
      var last := edges[|edges| - 1];
      Successors(edges[..|edges| - 1], v) + (if last.src == v then [last.dst] else [])
  }

  /** Every source of an edge into v is listed among v's predecessors. */
  lemma {:induction false} PredecessorsComplete(edges: seq<Edge>, v: nat)
    ensures forall k :: 0 <= k < |edges| && edges[k].dst == v ==> edges[k].src in Predecessors(edges, v)
  {
    if |edges| > 0 {
      var init := edges[..|edges| - 1];
      PredecessorsComplete(init, v);
      forall k | 0 <= k < |edges| - 1 && edges[k].dst == v
        ensures edges[k].src in Predecessors(edges, v)
      {
        assert init[k] == edges[k];
      }
    }
  }

  /** Every target of an edge out of v is listed among v's successors. */
  lemma {:induction false} SuccessorsComplete(edges: seq<Edge>, v: nat)
    ensures forall k :: 0 <= k < |edges| && edges[k].src == v ==> edges[k].dst in Successors(edges, v)
  {
    if |edges| > 0 {
      var init := edges[..|edges| - 1];
      SuccessorsComplete(init, v);
      forall k | 0 <= k < |edges| - 1 && edges[k].src == v
        ensures edges[k].dst in Successors(edges, v)
      {
        assert init[k] == edges[k];
      }
    }
  }

  /** The number of infected nodes: the entries equal to 1. */
  function CountInfected(s: seq<int>): nat {
    if |s| == 0 then 0 else (if s[0] == 1 then 1 else 0) + CountInfected(s[1..])
  }

  /** The states of a numeric `initial`: numOnes ones followed by zeros. */
  function FractionStates(n: nat, numOnes: nat): (r: seq<int>)
    requires numOnes <= n
    ensures |r| == n
    ensures forall i :: 0 <= i < n ==> r[i] == if i < numOnes then 1 else 0
  {
    seq(numOnes, _ => 1) + seq(n - numOnes, _ => 0)
  }

  /** The states generate assigns, or the error it raises. */
  function InitialStates(n: nat, initial: Initial): (r: Result<seq<int>>)
    requires initial.Fraction? ==> initial.numOnes <= n
    ensures r.Ok? <==> initial.Fraction? || (initial.StateList? && |initial.states| == n)
    ensures r.Err? ==> r.error == InvalidInitialValue
    ensures r.Ok? ==> |r.value| == n
    ensures initial.Fraction? ==> CountInfected(r.value) == initial.numOnes
    ensures initial.Fraction? ==> forall i :: 0 <= i < n ==> r.value[i] == if i < initial.numOnes then 1 else 0
    ensures initial.StateList? && r.Ok? ==> r.value == initial.states
  {
    match initial
    case Fraction(k) =>
      CountFractionStates(n, k);
      Ok(FractionStates(n, k))
    case StateList(states) =>
      if |states| == n then Ok(states) else Err(InvalidInitialValue)
    case Unsupported =>
      Err(InvalidInitialValue)
  }

  lemma {:induction false} CountInfectedAppend(a: seq<int>, b: seq<int>)
    ensures CountInfected(a + b) == CountInfected(a) + CountInfected(b)
  {
    if |a| == 0 {
      assert a + b == b;
    } else {
      assert (a + b)[1..] == a[1..] + b;
      CountInfectedAppend(a[1..], b);
    }
  }

  lemma {:induction false} CountConstant(k: nat, x: int)
    ensures CountInfected(seq(k, _ => x)) == if x == 1 then k else 0
  {
    if k > 0 {
      assert seq(k, _ => x)[1..] == seq(k - 1, _ => x);
      CountConstant(k - 1, x);
    }
  }

  /** A numeric `initial` infects exactly numOnes nodes. */
  lemma CountFractionStates(n: nat, numOnes: nat)
    requires numOnes <= n
    ensures CountInfected(FractionStates(n, numOnes)) == numOnes
  {
    CountInfectedAppend(seq(numOnes, _ => 1), seq(n - numOnes, _ => 0));
    CountConstant(numOnes, 1);
    CountConstant(n - numOnes, 0);
  }

  /** In a prefix of the ring construction, node v has the ring predecessor once its edge has been added. */
  lemma {:induction false} RingPrefixPredecessors(n: nat, k: nat, v: nat)
    requires k <= n && v < n
    ensures Predecessors(RingPrefix(n, k), v) == if RingPredecessor(n, v) < k then [RingPredecessor(n, v)] else []
  {
    if k > 0 {
      assert RingPrefix(n, k)[..k - 1] == RingPrefix(n, k - 1);
      RingPrefixPredecessors(n, k - 1, v);
      ModNear(k, n);
      var u := RingPredecessor(n, v);
      assert RingPrefix(n, k)[k - 1] == Edge(k - 1, k % n);
      assert (k % n == v) == (k - 1 == u);
    }
  }

  /** In a prefix of the ring construction, node v has its ring successor once its own edge has been added. */
  lemma {:induction false} RingPrefixSuccessors(n: nat, k: nat, v: nat)
    requires k <= n && v < n
    ensures Successors(RingPrefix(n, k), v) == if v < k then [(v + 1) % n] else []
  {
    if k > 0 {
      var e := RingPrefix(n, k);
      assert e[..k - 1] == RingPrefix(n, k - 1);
      assert e[k - 1] == Edge(k - 1, k % n);
      RingPrefixSuccessors(n, k - 1, v);
      assert Successors(e, v) == Successors(e[..k - 1], v) + (if k - 1 == v then [k % n] else []);
    }
  }

  /** The ring has exactly n edges, i -> (i + 1) mod n, all between nodes; on one node it is a self-loop. */
  lemma RingShape(n: nat)
    ensures |RingEdges(n)| == n && EdgesWithin(RingEdges(n), n)
    ensures forall i :: 0 <= i < n ==> RingEdges(n)[i] == Edge(i, (i + 1) % n)
    ensures n == 1 ==> RingEdges(n) == [Edge(0, 0)]
  {
  }

  /** Every node of the ring has exactly one incoming edge, from (v - 1) mod n, and one outgoing edge, to (v + 1) mod n. */
  lemma RingNeighbours(n: nat, v: nat)
    requires v < n
    ensures Predecessors(RingEdges(n), v) == [RingPredecessor(n, v)]
    ensures Successors(RingEdges(n), v) == [(v + 1) % n]
  {
    RingPrefixPredecessors(n, n, v);
    RingPrefixSuccessors(n, n, v);
  }

  /** A graph: nodes 0 .. n-1 with a mutable state attribute each, and a list of directed edges. */
  class Graph {
    const n: nat
    const states: array<int>
    var edges: seq<Edge>

    ghost predicate Valid()
      reads this
    {
      states.Length == n && EdgesWithin(edges, n)
    }

    /** The nodes 0 .. n-1 with no edges yet. */
    constructor (n: nat)
      ensures Valid() && this.n == n && edges == [] && fresh(states)
    {
      this.n := n;
      states := new int[n];
      edges := [];
    }

    method AddEdge(e: Edge)
      requires Valid() && e.src < n && e.dst < n
      modifies this
      ensures Valid() && edges == old(edges) + [e]
    {
      edges := edges + [e];
    }
  }

  /** Builds the ring on n nodes and assigns each node its initial state. */
  method Generate(n: nat, initial: Initial) returns (res: Result<Graph>)
    requires initial.Fraction? ==> initial.numOnes <= n
    ensures res.Ok? <==> InitialStates(n, initial).Ok?
    ensures res.Err? ==> res.error == InvalidInitialValue
    ensures res.Ok? ==> fresh(res.value) && fresh(res.value.states) && res.value.Valid() && res.value.n == n
    ensures res.Ok? ==> res.value.edges == RingEdges(n) && res.value.states[..] == InitialStates(n, initial).value
  {
    var g := new Graph(n);
    for i := 0 to n
      invariant g.Valid() && g.edges == RingPrefix(n, i)
    {
      g.AddEdge(Edge(i, (i + 1) % n));
      assert RingPrefix(n, i + 1) == RingPrefix(n, i) + [Edge(i, (i + 1) % n)];
    }
    var states: seq<int>;
    if initial.Fraction? {
      states := FractionStates(n, initial.numOnes);
    } else if initial.StateList? && |initial.states| == n {
      states := initial.states;
    } else {
      return Err(InvalidInitialValue);
    }
    assert states == InitialStates(n, initial).value;
    for i := 0 to n
      invariant g.Valid() && g.edges == RingEdges(n)
      invariant g.states[..i] == states[..i]
    {
      g.states[i] := states[i];
      assert g.states[..i + 1] == g.states[..i] + [states[i]];
      assert states[..i + 1] == states[..i] + [states[i]];
    }
    assert g.states[..] == g.states[..n];
    return Ok(g);
  }
}
