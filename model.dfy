/** The epidemic simulator: the synchronous SIS step over a graph and the bounded run that records snapshots. */
module Sis {
  import opened Errors
  import opened NetworkGeneration

  /** The iteration cap a model gets when its caller names none. */
  const DefaultIterationCap: nat := 200

  /** A Poisson sampler: sample(j, m) is the j-th draw of the random stream when it is asked for mean m. */
  type Sampler = (nat, real) -> nat

  /** The one fact about Poisson draws the model relies on: a draw with mean 0 is 0. */
  ghost predicate ZeroMeanGivesZero(sample: Sampler) {
    forall j: nat :: sample(j, 0.0) == 0
  }

  /** The random stream: one Poisson draw per call, numbered by how many draws came before it. */
  class PoissonStream {
    const sample: Sampler
    var drawn: nat

    constructor (sample: Sampler)
      ensures this.sample == sample && drawn == 0
    {
      this.sample := sample;
      drawn := 0;
    }

    method Poisson(mean: real) returns (x: nat)
      modifies this
      ensures x == sample(old(drawn), mean) && drawn == old(drawn) + 1
    {
      x := sample(drawn, mean);
      drawn := drawn + 1;
    }
  }

  /** The infection rate lambda, the recovery rate r and the step duration dt. */
  datatype Rates = Rates(lambda: real, r: real, dt: real)

  /** The sum of the states of the given nodes. */
  function SumStates(s: seq<int>, nodes: seq<nat>): int
    requires forall j :: 0 <= j < |nodes| ==> nodes[j] < |s|
  {
    if |nodes| == 0 then 0 else s[nodes[0]] + SumStates(s, nodes[1..])
  }

  /** A sum of non-negative states is non-negative. */
  lemma {:induction false} SumStatesNonNegative(s: seq<int>, nodes: seq<nat>)
    requires forall j :: 0 <= j < |nodes| ==> nodes[j] < |s|
    requires forall i :: 0 <= i < |s| ==> s[i] >= 0
    ensures SumStates(s, nodes) >= 0
  {
    if |nodes| > 0 {
      SumStatesNonNegative(s, nodes[1..]);
    }
  }

  /** With {0,1}-valued states, a sum of states is at least 0 and at most the number of nodes summed. */
  lemma {:induction false} SumStatesBounds(s: seq<int>, nodes: seq<nat>)
    requires forall j :: 0 <= j < |nodes| ==> nodes[j] < |s|
    ensures AllBinary(s) ==> 0 <= SumStates(s, nodes) <= |nodes|
  {
    if |nodes| > 0 {
      SumStatesBounds(s, nodes[1..]);
    }
  }

  /** The number of infected predecessors of v: the sum of its predecessors' states. */
  function InfectedPredecessors(s: seq<int>, edges: seq<Edge>, v: nat): (k: int)
    requires EdgesWithin(edges, |s|)
    ensures Predecessors(edges, v) == [] ==> k == 0
  {
    SumStates(s, Predecessors(edges, v))
  }

  /** With {0,1}-valued states, the infected-predecessor count of v lies between 0 and the number of predecessors. */
  lemma InfectedPredecessorsBounds(s: seq<int>, edges: seq<Edge>, v: nat)
    requires EdgesWithin(edges, |s|) && AllBinary(s)
    ensures 0 <= InfectedPredecessors(s, edges, v) <= |Predecessors(edges, v)|
  {
    SumStatesBounds(s, Predecessors(edges, v));
  }

  /** The mean of an infected node's recovery draw: 0 when r is 0, and never negative for non-negative r and dt. */
  function RecoveryMean(rates: Rates): (m: real)
    ensures rates.r == 0.0 ==> m == 0.0
    ensures rates.r >= 0.0 && rates.dt >= 0.0 ==> m >= 0.0
  {
    rates.r * rates.dt
  }

  /** The mean of a susceptible node's infection draw when k of its predecessors are infected: 0 when lambda is 0 or
      no predecessor is infected, and never negative for non-negative lambda, k and dt. */
  function InfectionMean(rates: Rates, k: int): (m: real)
    ensures rates.lambda == 0.0 || k == 0 ==> m == 0.0
    ensures rates.lambda >= 0.0 && k >= 0 && rates.dt >= 0.0 ==> m >= 0.0
  {
    rates.lambda * (k as real) * rates.dt
  }

  /** The mean of node v's draw: the recovery mean when it is infected, the infection mean otherwise. */
  function Mean(s: seq<int>, edges: seq<Edge>, rates: Rates, v: nat): real
    requires v < |s| && EdgesWithin(edges, |s|)
  {
    if s[v] == 1 then RecoveryMean(rates)
    else InfectionMean(rates, InfectedPredecessors(s, edges, v))
  }

  /** With non-negative states, non-negative rates and a non-negative step duration, no draw is asked for a negative
      mean. */
  lemma MeanNonNegative(s: seq<int>, edges: seq<Edge>, rates: Rates, v: nat)
    requires v < |s| && EdgesWithin(edges, |s|) && forall i :: 0 <= i < |s| ==> s[i] >= 0
    requires rates.lambda >= 0.0 && rates.r >= 0.0 && rates.dt >= 0.0
    ensures Mean(s, edges, rates, v) >= 0.0
  {
    SumStatesNonNegative(s, Predecessors(edges, v));
  }

  /** The draws of one step starting at stream position base: node v takes draw base + v. */
  function Draws(s: seq<int>, edges: seq<Edge>, rates: Rates, sample: Sampler, base: nat): (d: seq<nat>)
    requires EdgesWithin(edges, |s|)
    ensures |d| == |s|
  {
    seq(|s|, v requires 0 <= v < |s| => sample(base + v, Mean(s, edges, rates, v)))
  }

  /** Node v's draw is stream position base + v, taken with the recovery mean if v is infected and the infection mean otherwise. */
  lemma DrawAt(s: seq<int>, edges: seq<Edge>, rates: Rates, sample: Sampler, base: nat, v: nat)
    requires EdgesWithin(edges, |s|) && v < |s|
    ensures Draws(s, edges, rates, sample, base)[v]
      == sample(base + v, if s[v] == 1 then RecoveryMean(rates) else InfectionMean(rates, InfectedPredecessors(s, edges, v)))
  {
  }

  /** A node's state after a step with the given draw: a positive draw flips infected to 0 and anything else to 1. */
  function Next(state: int, draw: nat): int {
    if draw > 0 then (if state == 1 then 0 else 1) else state
  }

  /** Every node's new state, each decided from its own pre-step state and draw. */
  function StepWith(s: seq<int>, d: seq<nat>): (t: seq<int>)
    requires |d| == |s|
    ensures |t| == |s|
  {
    seq(|s|, v requires 0 <= v < |s| => Next(s[v], d[v]))
  }

  /** One synchronous step from states s, with the draws starting at stream position base. */
  function Step(s: seq<int>, edges: seq<Edge>, rates: Rates, sample: Sampler, base: nat): (t: seq<int>)
    requires EdgesWithin(edges, |s|)
    ensures |t| == |s|
  {
    StepWith(s, Draws(s, edges, rates, sample, base))
  }

  /** A step changes node v exactly when v's draw is positive. */
  lemma StepChanges(s: seq<int>, edges: seq<Edge>, rates: Rates, sample: Sampler, base: nat, v: nat)
    requires EdgesWithin(edges, |s|) && v < |s|
    ensures Step(s, edges, rates, sample, base)[v] != s[v] <==> Draws(s, edges, rates, sample, base)[v] > 0
  {
    var d := Draws(s, edges, rates, sample, base);
    assert StepWith(s, d)[v] == Next(s[v], d[v]);
  }

  /** The states after k steps: the first step takes the draws from base on, and each later step starts where the
      previous one stopped, N positions further. */
  function Iterate(s: seq<int>, edges: seq<Edge>, rates: Rates, sample: Sampler, base: nat, k: nat): (t: seq<int>)
    requires EdgesWithin(edges, |s|)
    ensures |t| == |s|
    decreases k
  {
    if k == 0 then s
    else Iterate(Step(s, edges, rates, sample, base), edges, rates, sample, base + |s|, k - 1)
  }

  /** Step k + 1 of a run starts from the states after k steps and takes the draws from base + k * N on. */
  lemma {:induction false} IterateSnoc(s: seq<int>, edges: seq<Edge>, rates: Rates, sample: Sampler, base: nat, k: nat)
    requires EdgesWithin(edges, |s|)
    ensures Iterate(s, edges, rates, sample, base, k + 1)
      == Step(Iterate(s, edges, rates, sample, base, k), edges, rates, sample, base + k * |s|)
    decreases k
  {
    if k > 0 {
      var s1 := Step(s, edges, rates, sample, base);
      IterateSnoc(s1, edges, rates, sample, base + |s|, k - 1);
      assert base + |s| + (k - 1) * |s1| == base + k * |s|;
    }
  }

  /** The snapshots of a run of k steps: the states after each step. */
  function Trajectory(s: seq<int>, edges: seq<Edge>, rates: Rates, sample: Sampler, base: nat, k: nat): (ts: seq<seq<int>>)
    requires EdgesWithin(edges, |s|)
    ensures |ts| == k
    decreases k
  {
    if k == 0 then []
    else Trajectory(s, edges, rates, sample, base, k - 1) + [Iterate(s, edges, rates, sample, base, k)]
  }

  /** The transition table new_states after the first k nodes are visited: node v < k has an entry exactly when its
      draw is positive, and the entry is 0 for an infected node and 1 for any other. */
  function TablePrefix(s: seq<int>, d: seq<nat>, k: nat): map<nat, int>
    requires |d| == |s| && k <= |s|
  {
    map v: nat | v < k && d[v] > 0 :: if s[v] == 1 then 0 else 1
  }

  /** The states after writing every entry of the table over s; an empty table changes nothing. */
  function Overwrite(s: seq<int>, table: map<nat, int>): (t: seq<int>)
    ensures |t| == |s|
    ensures table == map[] ==> t == s
  {
    seq(|s|, v requires 0 <= v < |s| => if v in table then table[v] else s[v])
  }

  /** Visiting node k adds its entry when its draw is positive and leaves the table alone otherwise. */
  lemma TablePrefixExtend(s: seq<int>, d: seq<nat>, k: nat)
    requires |d| == |s| && k < |s|
    ensures TablePrefix(s, d, k + 1)
      == if d[k] > 0 then TablePrefix(s, d, k)[k := if s[k] == 1 then 0 else 1] else TablePrefix(s, d, k)
  {
  }

  /** Writing the full table after the loop is the synchronous step: each node gets its new state from its own
      pre-step state and draw. */
  lemma WriteTableIsStep(s: seq<int>, d: seq<nat>)
    requires |d| == |s|
    ensures Overwrite(s, TablePrefix(s, d, |s|)) == StepWith(s, d)
  {
  }

  /** An infected node becomes 0 exactly when its recovery draw, of mean r*dt, is positive; otherwise it stays 1. */
  lemma StepInfected(s: seq<int>, edges: seq<Edge>, rates: Rates, sample: Sampler, base: nat, v: nat)
    requires EdgesWithin(edges, |s|) && v < |s| && s[v] == 1
    ensures Step(s, edges, rates, sample, base)[v] == if sample(base + v, RecoveryMean(rates)) > 0 then 0 else 1
  {
    var d := Draws(s, edges, rates, sample, base);
    assert d[v] == sample(base + v, Mean(s, edges, rates, v));
  }

  /** A node that is not infected becomes 1 exactly when its infection draw, of mean lambda*k*dt with k its infected
      predecessors before the step, is positive; otherwise it keeps its state. */
  lemma StepSusceptible(s: seq<int>, edges: seq<Edge>, rates: Rates, sample: Sampler, base: nat, v: nat)
    requires EdgesWithin(edges, |s|) && v < |s| && s[v] != 1
    ensures Step(s, edges, rates, sample, base)[v]
      == if sample(base + v, InfectionMean(rates, InfectedPredecessors(s, edges, v))) > 0 then 1 else s[v]
  {
    var d := Draws(s, edges, rates, sample, base);
    assert d[v] == sample(base + v, Mean(s, edges, rates, v));
  }

  /** All states are 0 or 1. */
  predicate AllBinary(s: seq<int>) {
    forall v :: 0 <= v < |s| ==> s[v] == 0 || s[v] == 1
  }

  /** A step keeps every state in {0, 1}. */
  lemma StepKeepsBinary(s: seq<int>, edges: seq<Edge>, rates: Rates, sample: Sampler, base: nat)
    requires EdgesWithin(edges, |s|) && AllBinary(s)
    ensures AllBinary(Step(s, edges, rates, sample, base))
  {
  }

  /** Any number of steps keeps every state in {0, 1}. */
  lemma {:induction false} IterateKeepsBinary(s: seq<int>, edges: seq<Edge>, rates: Rates, sample: Sampler, base: nat, k: nat)
    requires EdgesWithin(edges, |s|) && AllBinary(s)
    ensures AllBinary(Iterate(s, edges, rates, sample, base, k))
    decreases k
  {
    if k > 0 {
      var s1 := Step(s, edges, rates, sample, base);
      StepKeepsBinary(s, edges, rates, sample, base);
      IterateKeepsBinary(s1, edges, rates, sample, base + |s|, k - 1);
    }
  }

  /** On the ring, node v's infected-predecessor count is the state of node (v - 1) mod n. */
  lemma RingInfectedPredecessors(s: seq<int>, v: nat)
    requires v < |s|
    ensures EdgesWithin(RingEdges(|s|), |s|)
    ensures InfectedPredecessors(s, RingEdges(|s|), v) == s[RingPredecessor(|s|, v)]
  {
    RingShape(|s|);
    RingNeighbours(|s|, v);
    var u := RingPredecessor(|s|, v);
    assert [u][1..] == [];
    assert SumStates(s, [u]) == s[u] + SumStates(s, []);
  }

  /** On the ring, a susceptible node whose predecessor is susceptible stays susceptible: its draw has mean 0. */
  lemma RingSusceptibleStays(s: seq<int>, rates: Rates, sample: Sampler, base: nat, v: nat)
    requires ZeroMeanGivesZero(sample)
    requires v < |s| && s[v] == 0 && s[RingPredecessor(|s|, v)] == 0
    ensures EdgesWithin(RingEdges(|s|), |s|)
    ensures Step(s, RingEdges(|s|), rates, sample, base)[v] == 0
  {
    RingInfectedPredecessors(s, v);
    assert Mean(s, RingEdges(|s|), rates, v) == 0.0;
  }

  /** With lambda = 0 and r = 0 every draw has mean 0, so a step changes no state. */
  lemma QuiescentStep(s: seq<int>, edges: seq<Edge>, rates: Rates, sample: Sampler, base: nat)
    requires ZeroMeanGivesZero(sample) && rates.lambda == 0.0 && rates.r == 0.0
    requires EdgesWithin(edges, |s|)
    ensures Step(s, edges, rates, sample, base) == s
  {
    var t := Step(s, edges, rates, sample, base);
    forall v | 0 <= v < |s| ensures t[v] == s[v] {
      assert Mean(s, edges, rates, v) == 0.0;
    }
  }

  /** With lambda = 0 and r = 0 no number of steps changes a state. */
  lemma {:induction false} QuiescentIterate(s: seq<int>, edges: seq<Edge>, rates: Rates, sample: Sampler, base: nat, k: nat)
    requires ZeroMeanGivesZero(sample) && rates.lambda == 0.0 && rates.r == 0.0
    requires EdgesWithin(edges, |s|)
    ensures Iterate(s, edges, rates, sample, base, k) == s
    decreases k
  {
    if k > 0 {
      QuiescentStep(s, edges, rates, sample, base);
      QuiescentIterate(s, edges, rates, sample, base + |s|, k - 1);
    }
  }

  /** A run of k steps records k snapshots, each of length |s| in node order; snapshot j is the state after j + 1 steps. */
  lemma {:induction false} TrajectoryShape(s: seq<int>, edges: seq<Edge>, rates: Rates, sample: Sampler, base: nat, k: nat)
    requires EdgesWithin(edges, |s|)
    ensures |Trajectory(s, edges, rates, sample, base, k)| == k
    ensures forall j :: 0 <= j < k ==>
      |Trajectory(s, edges, rates, sample, base, k)[j]| == |s| &&
      Trajectory(s, edges, rates, sample, base, k)[j] == Iterate(s, edges, rates, sample, base, j + 1)
  {
    if k > 0 {
      TrajectoryShape(s, edges, rates, sample, base, k - 1);
      var prev := Trajectory(s, edges, rates, sample, base, k - 1);
      var last := Iterate(s, edges, rates, sample, base, k);
      assert Trajectory(s, edges, rates, sample, base, k) == prev + [last];
      forall j | 0 <= j < k
        ensures (prev + [last])[j] == Iterate(s, edges, rates, sample, base, j + 1)
      {
        if j < k - 1 {
          assert (prev + [last])[j] == prev[j];
        }
      }
    }
  }

  /** With lambda = 0 and r = 0 every snapshot of a run equals the initial states. */
  lemma QuiescentRun(s: seq<int>, edges: seq<Edge>, rates: Rates, sample: Sampler, base: nat, k: nat)
    requires ZeroMeanGivesZero(sample) && rates.lambda == 0.0 && rates.r == 0.0
    requires EdgesWithin(edges, |s|)
    ensures forall j :: 0 <= j < |Trajectory(s, edges, rates, sample, base, k)| ==>
      Trajectory(s, edges, rates, sample, base, k)[j] == s
  {
    var ts := Trajectory(s, edges, rates, sample, base, k);
    forall j | 0 <= j < |ts| ensures ts[j] == s {
      assert ts[j] == Iterate(s, edges, rates, sample, base, j + 1) by {
        TrajectoryShape(s, edges, rates, sample, base, k);
      }
      assert Iterate(s, edges, rates, sample, base, j + 1) == s by {
        QuiescentIterate(s, edges, rates, sample, base, j + 1);
      }
    }
  }

  /** A sampler for which a positive mean always gives a positive draw. */
  function CertainSampler(): Sampler {
    (j: nat, m: real) => if m > 0.0 then 1 else 0
  }

  /** The step is synchronous: on the ring [1, 0, 0] with certain infection and no recovery, node 1 catches the
      infection from node 0, but node 2 does not see node 1's new state within the same step. */
  lemma AtomicStepExample()
    ensures EdgesWithin(RingEdges(3), 3)
    ensures Step([1, 0, 0], RingEdges(3), Rates(1.0, 0.0, 1.0), CertainSampler(), 0) == [1, 1, 0]
  {
    var s: seq<int> := [1, 0, 0];
    var rates := Rates(1.0, 0.0, 1.0);
    RingInfectedPredecessors(s, 1);
    RingInfectedPredecessors(s, 2);
    assert Mean(s, RingEdges(3), rates, 0) == 0.0;
    assert Mean(s, RingEdges(3), rates, 1) == 1.0;
    assert Mean(s, RingEdges(3), rates, 2) == 0.0;
  }

  /** An SIS model: it owns the graph, the rates, the iteration cap and a random stream. */
  class SISModel {
    const g: Graph
    const lambda: real
    const r: real
    const dt: real
    const K: nat
    const rng: PoissonStream

    ghost predicate Valid()
      reads this, g
    {
      g.Valid()
    }

    function Config(): Rates {
      Rates(lambda, r, dt)
    }

    constructor (g: Graph, lambda: real, r: real, dt: real, K: nat, rng: PoissonStream)
      requires g.Valid()
      ensures Valid()
      ensures this.g == g && this.lambda == lambda && this.r == r && this.dt == dt && this.K == K && this.rng == rng
    {
      this.g := g;
      this.lambda := lambda;
      this.r := r;
      this.dt := dt;
      this.K := K;
      this.rng := rng;
    }

    /** One synchronous step: decide every node's transition from the pre-step states, then write them. */
    method Update()
      requires Valid()
      modifies g.states, rng
      ensures Valid() && g.edges == old(g.edges)
      ensures g.states[..] == Step(old(g.states[..]), g.edges, Config(), rng.sample, old(rng.drawn))
      ensures rng.drawn == old(rng.drawn) + g.n
    {
      ghost var s0 := g.states[..];
      ghost var d := Draws(s0, g.edges, Config(), rng.sample, rng.drawn);
      var newStates := DecideTransitions();
      WriteTransitions(newStates);
      WriteTableIsStep(s0, d);
    }

    /** The first loop of a step: visit the nodes in ascending order, take one draw each and record the transitions
        in the table, without writing any state. */
    method DecideTransitions() returns (newStates: map<nat, int>)
      requires Valid()
      modifies rng
      ensures newStates == TablePrefix(g.states[..], Draws(g.states[..], g.edges, Config(), rng.sample, old(rng.drawn)), g.n)
      ensures rng.drawn == old(rng.drawn) + g.n
    {
      ghost var s0 := g.states[..];
      ghost var d := Draws(s0, g.edges, Config(), rng.sample, rng.drawn);
      ghost var base := rng.drawn;
      newStates := map[];
      var node := 0;
      while node < g.n
        invariant node <= g.n
        invariant rng.drawn == base + node
        invariant newStates == TablePrefix(s0, d, node)
      {
        TablePrefixExtend(s0, d, node);
        if g.states[node] == 1 {
          var x := rng.Poisson(RecoveryMean(Config()));
          assert x == d[node] by {
            DrawAt(s0, g.edges, Config(), rng.sample, base, node);
          }
          if x > 0 {
            newStates := newStates[node := 0];
          }
        } else {
          var infected := InfectedPredecessors(g.states[..], g.edges, node);
          var x := rng.Poisson(InfectionMean(Config(), infected));
          assert x == d[node] by {
            DrawAt(s0, g.edges, Config(), rng.sample, base, node);
          }
          if x > 0 {
            newStates := newStates[node := 1];
          }
        }
        node := node + 1;
      }
    }

    /** The second loop of a step: write every entry of the table into the graph. The keys are distinct nodes, so the
        order of the writes does not matter. */
    method WriteTransitions(newStates: map<nat, int>)
      requires Valid()
      requires forall v :: v in newStates ==> v < g.n
      modifies g.states
      ensures g.states[..] == Overwrite(old(g.states[..]), newStates)
    {
      ghost var s0 := g.states[..];
      var remaining := newStates.Keys;
      while remaining != {}
        invariant remaining <= newStates.Keys
        invariant forall v :: 0 <= v < g.n ==>
          g.states[v] == if v in newStates && v !in remaining then newStates[v] else s0[v]
        decreases |remaining|
      {
        var node :| node in remaining;
        g.states[node] := newStates[node];
        remaining := remaining - {node};
      }
      assert g.states[..] == Overwrite(s0, newStates);
    }

    /** Rejects a run whose step count exceeds the cap K. */
    function CheckNumberOfIterations(numUpdates: nat): (o: Outcome)
      ensures o.Fail? <==> numUpdates > K
      ensures o.Fail? ==> o.error == TooManyIterations(numUpdates, K)
    {
      if numUpdates > K then Fail(TooManyIterations(numUpdates, K)) else Pass
    }

    /** Runs numUpdates steps and records the states after each one; fails before any step when numUpdates > K. */
    method Run(numUpdates: nat) returns (res: Result<seq<seq<int>>>)
      requires Valid()
      modifies g.states, rng
      ensures Valid() && g.edges == old(g.edges)
      ensures numUpdates > K ==> res == Err(TooManyIterations(numUpdates, K))
      ensures numUpdates > K ==> g.states[..] == old(g.states[..]) && rng.drawn == old(rng.drawn)
      ensures numUpdates <= K ==>
        res == Ok(Trajectory(old(g.states[..]), g.edges, Config(), rng.sample, old(rng.drawn), numUpdates))
      ensures numUpdates <= K ==>
        g.states[..] == Iterate(old(g.states[..]), g.edges, Config(), rng.sample, old(rng.drawn), numUpdates)
      ensures numUpdates <= K ==> rng.drawn == old(rng.drawn) + numUpdates * g.n
    {
      var check := CheckNumberOfIterations(numUpdates);
      if check.Fail? {
        return Err(check.error);
      }
      ghost var s0 := g.states[..];
      ghost var base := rng.drawn;
      var snapshots: seq<seq<int>> := [];
      for k := 0 to numUpdates
        invariant Valid() && g.edges == old(g.edges)
        invariant g.states[..] == Iterate(s0, g.edges, Config(), rng.sample, base, k)
        invariant rng.drawn == base + k * g.n
        invariant snapshots == Trajectory(s0, g.edges, Config(), rng.sample, base, k)
      {
        Update();
        IterateSnoc(s0, g.edges, Config(), rng.sample, base, k);
        assert base + k * g.n + g.n == base + (k + 1) * g.n;
        snapshots := snapshots + [g.states[..]];
      }
      return Ok(snapshots);
    }
  }

  /** Builds a model: generate the ring with its initial states, then keep the rates, the cap and the stream. */
  method NewModel(n: nat, initial: Initial, lambda: real, r: real, dt: real, rng: PoissonStream, K: nat := DefaultIterationCap)
    returns (res: Result<SISModel>)
    requires initial.Fraction? ==> initial.numOnes <= n
    ensures res.Ok? <==> InitialStates(n, initial).Ok?
    ensures res.Err? ==> res.error == InvalidInitialValue
    ensures res.Ok? ==> fresh(res.value) && fresh(res.value.g) && fresh(res.value.g.states) && res.value.Valid()
    ensures res.Ok? ==> res.value.g.n == n && res.value.g.edges == RingEdges(n)
    ensures res.Ok? ==> res.value.g.states[..] == InitialStates(n, initial).value
    ensures res.Ok? ==> res.value.Config() == Rates(lambda, r, dt) && res.value.K == K && res.value.rng == rng
  {
    var graph := Generate(n, initial);
    if graph.Err? {
      return Err(graph.error);
    }
    var m := new SISModel(graph.value, lambda, r, dt, K, rng);
    return Ok(m);
  }
}
