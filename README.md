# SIS epidemic on a directed ring — a Dafny model

This project models the simulation core of `simulate-sis-on-circle`. That core runs an SIS
(susceptible–infected–susceptible) epidemic on a directed ring of N nodes. It has two parts:

* **Topology generator** (`network_generation.py`, module `NetworkGeneration`). `generate` builds the
  N edges i → (i+1) mod N. It then gives every node a state: for a numeric `initial`, the first
  `int(N*initial)` nodes get 1 and the rest 0; a list of length N is copied as given; anything else raises
  `ValueError("Invalid initial value")`. The graph is a `Graph` class with a fixed node count, an edge list
  that `AddEdge` extends, and a per-node `states` array that is written in place.
* **Epidemic simulator** (`model.py`, module `Sis`). The `SISModel` class owns the graph, `lambda`, `r`,
  `dt`, the cap `K` and a random stream.
  * `Update` makes one pass over the nodes in ascending order and takes one Poisson draw per node.
    An infected node uses mean `r*dt`. Any other node uses mean `lambda*k*dt`, where k is the sum of its
    predecessors' states. Each positive draw adds an entry to a transition table.
  * A second loop then writes the table's entries into the graph, so every decision sees only pre-step states.
  * `Run` rejects more than `K` steps before touching anything. Otherwise it calls `Update` `numUpdates`
    times and records the state vector after each call.

Modelling choices:

* **Randomness.** It is an oracle. A `PoissonStream` holds a sampler `sample(j, mean)`, the j-th draw of
  the stream for the mean it is asked for, and a counter of the draws taken so far. The one fact about
  Poisson draws the code relies on, that a mean-0 draw is 0, is the predicate `ZeroMeanGivesZero`. The
  lemmas that need it take it as a hypothesis.
* **Pure specification.** `Step` is one synchronous step from a state sequence and a stream position.
  Node v uses draw `base + v`. `Iterate` is k steps, and `Trajectory` is the list of snapshots of a k-step
  run. `Update` and `Run` are proved equal to these functions. Every property is then proved about the
  functions.
* **Numbers.** States are `int`, because an explicit initial list is used verbatim and never validated.
  `lambda`, `r` and `dt` are exact `real`s. The two float computations become given naturals:
  `int(N*initial)` is `Fraction(numOnes)` with `numOnes <= N`, and `int(total_time/dt)` is `numUpdates`.
* **The transition table.** The `new_states` dict is a `map<nat, int>`. Its two loops are the helper
  methods `DecideTransitions` and `WriteTransitions`, which `Update` calls in turn. The write-back loop
  visits the keys in an unspecified order, where Python uses insertion order. Each node is a key at most
  once, so the order cannot change the result.
* **Construction.** `SISModel.__init__` calls `generate`, which may raise. `NewModel` therefore returns a
  `Result`: it generates the graph, then calls the constructor, which takes the finished graph. The
  source's default cap `K=200` is `NewModel`'s default argument `K := DefaultIterationCap`.
* **Snapshots.** They are Dafny sequences, which are values, so each run's result is a fresh list by
  construction.
* **Unchecked inputs.** The cap check runs before every run. An explicit initial list is checked only for its
  length, not for values outside {0,1}. `N`, `lambda`, `r`, `dt` and `K` are not checked for sign.

## Model

| member | source | states |
|---|---|---|
| `NetworkGeneration.RingPrefix` | network_generation.py:7-8 | the edges added by the first k rounds of the loop: exactly k of them, each between two of the N nodes; `Generate`'s loop invariant, and `RingPrefixPredecessors`/`RingPrefixSuccessors` give each node's neighbours after k rounds |
| `NetworkGeneration.RingEdges` | network_generation.py:7-8 | the full edge list after the loop, `RingPrefix(n, n)`; no contract of its own, its shape is stated by `RingShape` and `RingNeighbours` |
| `NetworkGeneration.RingPredecessor` | network_generation.py:7-8 | the ring predecessor u of node v is a node whose edge enters v, (u+1) mod n = v, and it equals (v-1) mod n |
| `NetworkGeneration.Predecessors` | model.py:51 | every node listed as a predecessor of v has an edge into v |
| `NetworkGeneration.PredecessorsComplete` | model.py:51 | conversely, the source of every edge into v is listed among v's predecessors |
| `NetworkGeneration.Successors` | network_generation.py:7-8 | every node listed as a successor of v is the target of an edge from v |
| `NetworkGeneration.SuccessorsComplete` | network_generation.py:7-8 | conversely, the target of every edge out of v is listed among v's successors |
| `NetworkGeneration.FractionStates` | network_generation.py:13 | `[1]*numOnes + [0]*(N-numOnes)` has length N, and node i holds 1 iff i < numOnes |
| `NetworkGeneration.InitialStates` | network_generation.py:10-17 | succeeds exactly for a number or a list of length N, otherwise gives InvalidInitialValue; a number gives N states, state i is 1 iff i < numOnes, exactly numOnes infected; a list is returned verbatim |
| `NetworkGeneration.CountFractionStates` | network_generation.py:12-13 | `[1]*numOnes + [0]*(N-numOnes)` holds exactly numOnes infected nodes |
| `NetworkGeneration.RingPrefixPredecessors` | network_generation.py:7-8 | after the first k edges are added, node v has the single predecessor (v-1) mod n if that node's edge is among them, and none otherwise |
| `NetworkGeneration.RingPrefixSuccessors` | network_generation.py:7-8 | after the first k edges are added, node v has the single successor (v+1) mod n if v < k, and none otherwise |
| `NetworkGeneration.RingShape` | network_generation.py:7-8 | the ring has exactly n edges, edge i is i → (i+1) mod n, all between nodes 0..n-1; with n = 1 it is the self-loop 0 → 0 |
| `NetworkGeneration.RingNeighbours` | network_generation.py:7-8 | every node has exactly one incoming edge, from (v-1) mod n, and exactly one outgoing edge, to (v+1) mod n |
| `NetworkGeneration.Graph.constructor` | network_generation.py:6 | a new graph on nodes 0..n-1 with no edges and a fresh state array of length n |
| `NetworkGeneration.Graph.AddEdge` | network_generation.py:8 | appends the edge and changes nothing else |
| `NetworkGeneration.Generate` | network_generation.py:4-22 | fails with InvalidInitialValue exactly when the initial states are invalid; otherwise returns a fresh graph whose edges are the n ring edges and whose every node holds its initial state |
| `Sis.PoissonStream.Poisson` | model.py:46 | a draw is the stream's next value for the requested mean, and it advances the stream by one |
| `Sis.SumStates` | model.py:51 | the `sum(...)` over the states of a list of nodes; no contract of its own, its bounds are `SumStatesNonNegative` and `SumStatesBounds` |
| `Sis.SumStatesNonNegative` | model.py:51 | a sum of non-negative states is non-negative |
| `Sis.InfectedPredecessors` | model.py:51 | the infected-predecessor count of a node with no predecessors is 0 |
| `Sis.SumStatesBounds` | model.py:51 | with {0,1}-valued states, a sum of states lies between 0 and the number of nodes summed |
| `Sis.InfectedPredecessorsBounds` | model.py:51 | with {0,1}-valued states, the infected-predecessor count of v lies between 0 and the number of v's predecessors |
| `Sis.RecoveryMean` | model.py:46 | the recovery mean r*dt is 0 when r = 0, and non-negative for non-negative r and dt |
| `Sis.InfectionMean` | model.py:53 | the infection mean lambda*k*dt is 0 when lambda = 0 or no predecessor is infected, and non-negative for non-negative lambda, k and dt |
| `Sis.PoissonStream.constructor` | model.py:46-53 | numpy's global random stream as an oracle: a new stream holds the given sampler and has handed out no draws |
| `Sis.Mean` | model.py:44-53 | the mean a node's draw is asked for: r*dt for an infected node, lambda*k*dt for any other; no contract of its own, `DrawAt` states which mean each draw uses |
| `Sis.MeanNonNegative` | model.py:46-53 | with non-negative states (any, not only 0 and 1) and non-negative lambda, r and dt, no draw is asked for a negative mean |
| `Sis.Draws` | model.py:46-53 | one draw per node in node order, node v taking stream position base+v |
| `Sis.Next` | model.py:44-54 | a node's state after a step given its draw: a positive draw sets an infected node to 0 and any other node to 1, a zero draw keeps the state; no contract of its own, its meaning is stated by `StepChanges`, `StepInfected` and `StepSusceptible` |
| `Sis.StepWith` | model.py:42-57 | the states after a step with the given draws, one per node |
| `Sis.StepChanges` | model.py:44-57 | a step changes node v exactly when v's draw is positive |
| `Sis.Step` | model.py:41-57 | one synchronous step yields a state for each of the N nodes; what each node gets is stated by StepInfected and StepSusceptible |
| `Sis.Iterate` | model.py:70-71 | k steps in sequence, each starting N draws after the previous one, yield N states |
| `Sis.IterateSnoc` | model.py:70-71 | step k+1 of a run starts from the states after k steps and takes the draws from base + k*N on |
| `Sis.Trajectory` | model.py:69-73 | the snapshot list of a k-step run has exactly k entries |
| `Sis.DrawAt` | model.py:43-53 | node v's draw is stream position base+v, taken with mean r*dt if v is infected and lambda*k*dt otherwise |
| `Sis.TablePrefix` | model.py:42-54 | the `new_states` dict after the first k nodes are visited: an entry for each visited node whose draw is positive, 0 for an infected node and 1 for any other; no contract of its own, `TablePrefixExtend` states how one visit changes it |
| `Sis.Overwrite` | model.py:56-57 | the states after the write-back loop: one per node, and an empty table changes nothing |
| `Sis.TablePrefixExtend` | model.py:43-54 | visiting node k adds the entry k ↦ new state exactly when its draw is positive, otherwise the table is unchanged |
| `Sis.WriteTableIsStep` | model.py:42-57 | writing the full table over the pre-step states, after the loop, is exactly the synchronous step |
| `Sis.StepInfected` | model.py:44-48 | an infected node becomes 0 iff its draw of mean r*dt is positive, and otherwise stays 1 |
| `Sis.StepSusceptible` | model.py:50-54 | a node that is not infected becomes 1 iff its draw of mean lambda*k*dt is positive, where k is the sum of its predecessors' pre-step states; otherwise it keeps its state |
| `Sis.StepKeepsBinary` | model.py:44-57 | a step maps {0,1}-valued states to {0,1}-valued states |
| `Sis.IterateKeepsBinary` | model.py:70-71 | any number of steps keeps states in {0,1} |
| `Sis.RingInfectedPredecessors` | model.py:51 | on the ring, the infected-predecessor count of node v is the state of node (v-1) mod n |
| `Sis.RingSusceptibleStays` | model.py:51-53 | on the ring, if the zero-mean assumption holds, a susceptible node whose predecessor is susceptible stays susceptible |
| `Sis.QuiescentStep` | model.py:44-54 | with lambda = 0 and r = 0 and the zero-mean assumption, a step changes no state |
| `Sis.QuiescentIterate` | model.py:70-71 | with lambda = 0 and r = 0, no number of steps changes any state |
| `Sis.QuiescentRun` | model.py:67-73 | with lambda = 0 and r = 0, every snapshot of a run equals the initial states |
| `Sis.TrajectoryShape` | model.py:69-73 | a run of k steps gives exactly k snapshots, each of length N in node order, and snapshot j is the state after j+1 steps |
| `Sis.AtomicStepExample` | model.py:42-57 | the ring [1,0,0] with certain infection and no recovery steps to [1,1,0], not [1,1,1] |
| `Sis.SISModel.constructor` | model.py:34-39 | keeps the given graph, rates, cap and stream |
| `Sis.SISModel.Update` | model.py:41-57 | the new states are `Step` of the pre-step states, taking draws from the stream's current position; exactly N draws are consumed; the edges are unchanged |
| `Sis.SISModel.DecideTransitions` | model.py:42-54 | the table it builds is the one determined by the pre-step states and the draws; no state is written; exactly N draws are consumed |
| `Sis.SISModel.WriteTransitions` | model.py:56-57 | every node with an entry gets the entry's state, every other node keeps its state |
| `Sis.SISModel.CheckNumberOfIterations` | model.py:59-64 | fails iff numUpdates > K, and the error carries both numbers |
| `Sis.SISModel.Run` | model.py:67-73 | if numUpdates > K, fails before any step: states and stream untouched; otherwise returns the trajectory of numUpdates steps, leaves the states after numUpdates steps and consumes numUpdates*N draws |
| `Sis.NewModel` | model.py:34-39 | fails with InvalidInitialValue exactly when generate does; otherwise returns a model over the fresh ring graph with its initial states, the given rates, cap and stream |

## Left out

- `run_and_visualize`, `clear_figures`, `giffify_fun`, `midi_to_musicxml` and `run_midi_out` (model.py:16-31, model.py:76-174): plotting, image and MIDI file output and a MuseScore subprocess are rendering, not simulation.
- `visualize` (model.py:179-180) is an empty placeholder.
- main.py is a script that sets parameters and calls a method `run_with_midi_out` that model.py does not define, so there is nothing to model.
- The Poisson distribution itself: every draw is an oracle value `sample(j, mean)`, and only "mean 0 gives 0" is assumed. A negative mean, which numpy rejects with an error, can only come from a negative rate, a negative dt or negative states in an explicit list (`MeanNonNegative` shows that nothing else produces one). The model does not reproduce that error.
- The float computations `int(N*initial)` and `int(total_time/dt)`: their results are inputs (`numOnes`, `numUpdates`). So the ZeroDivisionError that `run` raises when dt = 0, in `int(total_time / self.dt)` before the cap check, is not modelled.
- A numeric `initial` for which `int(N*initial)` lies outside [0, N]: the source then builds a state list of the wrong length and fails inside networkx with a KeyError, not with `generate`'s ValueError. A fraction above 1 or below 0 whose product still truncates into [0, N] (N = 5 with 1.1 or -0.1, say) is fine there. The model requires `numOnes <= N`.
- A negative cap `K`: `K` is a `nat`. In the source a negative `K` makes every run whose `int(total_time/dt)` is at least 0 fail the cap check, even a zero-step run. A run whose `int(total_time/dt)` is negative but at most `K` passes the check and does no steps. No caller passes a negative cap: the default is 200 and main.py uses 300. With `K >= 0`, a negative `int(total_time/dt)` behaves like `numUpdates = 0`, so `numUpdates: nat` loses nothing.
- A negative node count `N`: `n` is a `nat`. In the source `range(N)` is then empty, so no edge is added. A numeric `initial` gives `[1]*int(N*initial) + [0]*(N - int(N*initial))`. When both counts are at most 0 (N = -3 with 0.5, say) that list is empty, and `generate` returns the same empty graph as `N = 0`. Otherwise (N = -3 with 2 gives `[0, 0, 0]`) the state loop fails inside networkx with a KeyError, as when `int(N*initial)` lies outside [0, N] for a non-negative `N`. A list `initial` cannot have a negative length, so it raises the ValueError.
- The `print` of the error message before the iteration check raises.
- networkx internals: the graph has a fixed node set 0..N-1, and `add_edge` does not add nodes. Predecessors are the sources of the entering edges in edge order. networkx lists each predecessor once; for the ring the two agree, as `RingNeighbours` shows.
- Python's `bool` being an `int` and other dynamic typing of `initial`: all non-number, non-list values are one `Unsupported` case.
