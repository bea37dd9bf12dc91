# Automata: a verified model of a small finite-automaton class

The repository is a generic finite-automaton class, `Automata<T>`, in two
header versions:

- `src/automata.h`, the version the unit tests exercise. It has:
  - a graph store: a vector of states, each with a terminal flag and a
    label-ordered multimap of edges;
  - an alphabet;
  - a table of forward-reference aliases, filled when `add_transition`
    names a target that does not exist yet;
  - epsilon-edge elimination, using a DFS closure;
  - the subset construction `thompson_nfa2dfa`;
  - a reading cursor driven by `step`, `read_expression` and `read_string`.
- `automata.h` at the repository root, the earlier variant. It has:
  - the same store and subset construction;
  - no aliases and no elimination;
  - an `add_transition` that can fail part-way;
  - a `read_expression` that stops at the first terminal state it reaches.

The model fixes `T = char`. The files are:

| file | module | contents |
|---|---|---|
| `graph.dfy` | `Graph` | State, Edge, the one-symbol successor sets `Post` and `Next`, acceptance of a set of states, `Link` (one `add_transition`) |
| `closure.dfy` | `Epsilon` | epsilon paths, reachability, the epsilon closure |
| `elimination.dfy` | `Elimination` | `epsilon_edges_elimination` as a function, its invariant and its result |
| `subsets.dfy` | `Subsets` | the subset construction as a method over values; `IsSubsetDfa` and `BfsOrder` describe its result |
| `language.dfy` | `Language` | what `read_expression` answers, and how the answer of a subset automaton relates to the NFA it was built from |
| `src_automata.dfy` | `SrcAutomata` | `class Automata` of `src/automata.h` |
| `root_automata.dfy` | `RootAutomata` | `class Automata` of the root `automata.h` |
| `scenarios.dfy` | `Scenarios` | the automata built in `test/unit.cpp`, and the answers the tests expect |

How the C++ structures are represented:

- The edge multimap is a `seq<Edge>` in insertion order:
  - `equal_range` is `Labelled`;
  - `find` is `FirstTarget`, the first inserted edge with that label.
- Iterating a `std::set` in ascending order is repeated extraction of the
  minimum (`MinChar`, `MinNat`).
- The BFS table of seen subsets is a `map<set<nat>, nat>` keyed by the exact
  set.

Each class method is proved against a function of the old state, for
example:

- `EpsilonEdgesElimination` leaves `states == Eliminated(old(states), ...)`;
- `ThompsonNfa2Dfa` leaves a result satisfying `IsSubsetDfa`.

The lemmas then state what those functions mean:

- the exact edges after elimination;
- the DFA has one edge per label;
- the DFA's answer to a word equals the NFA's answer read over sets of
  states.

## Model

| member | source | states |
|---|---|---|
| SrcAutomata.Automata.constructor | src/automata.h:34-37 | the new automaton has exactly one state, id 0, non-terminal and without edges; the alphabet and the alias table are empty; the cursor and the initial id are 0 |
| SrcAutomata.Automata.Begin | src/automata.h:97-99 | begin() is 0 and names an existing state |
| SrcAutomata.Automata.AddState | src/automata.h:56-60 | appends one state with the given flag; returns the previous count as its id; every other state and field is unchanged |
| SrcAutomata.Automata.At | src/automata.h:212-224 | a position inside the vector is its own id; a larger one resolves through the alias table, or to nothing when it has no alias |
| SrcAutomata.Automata.AddTransition | src/automata.h:62-77 | an unknown `from` fails and changes nothing. An unknown `to` first allocates one state with flag `h`, and records the alias only if `to` has none yet. Then `from` gains exactly the edge `(c, at(to))`, the target's flag becomes old OR `h`, `c` joins the alphabet, and no other state changes. A stale alias fails after the allocation |
| SrcAutomata.Toggled | src/automata.h:79-81 | only state `s` changes: its flag is negated and its edges are kept |
| SrcAutomata.ToggleTwice | src/automata.h:79-81 | toggling the same state twice gives back the original states |
| SrcAutomata.Automata.ToggleTerminal | src/automata.h:79-81 | a known state has its flag flipped and nothing else changes; an unknown state fails with the automaton unchanged |
| SrcAutomata.RemoveFirst | src/automata.h:83-91 | removes exactly one occurrence of the edge as a multiset, and changes nothing when the edge is absent |
| SrcAutomata.RemoveFirstAt | src/automata.h:83-91 | the occurrence removed is the first inserted one; the edges before and after it keep their order |
| SrcAutomata.Automata.DropTransition | src/automata.h:83-91 | only `from`'s edges change, and they lose the first edge `(c, to)`; the alphabet is never shrunk |
| SrcAutomata.Automata.DfsVisit | src/automata.h:228-235 | the visit adds `v` and only states reachable from `v` by epsilon edges; every epsilon edge leaving a newly visited state lands inside the result |
| SrcAutomata.Automata.Dfs | src/automata.h:237-240 | the result is exactly the epsilon closure of `v`: the states reachable by a non-empty epsilon path, without `v` itself, even on cycles |
| Epsilon.ReachesOnlySelf | src/automata.h:228-240 | when every epsilon edge is a self-loop, an epsilon path from `x` can only reach `x` |
| Epsilon.ClosureOfLoops | src/automata.h:228-240 | when every epsilon edge is a self-loop, every closure is empty |
| Epsilon.ReachesKept | src/automata.h:159-171 | adding edges whose epsilon edges are shortcuts of existing epsilon paths creates no new epsilon reachability |
| Elimination.CopyFromInvariant | src/automata.h:159-171 | over the whole copy loop, edges are only added, each added edge comes from some closure member, and every closure member's labelled edges end up on the origin |
| Elimination.CopyStep | src/automata.h:160-170 | one round of the copy loop keeps the loop invariant and extends it to the next state |
| Elimination.DropEps | src/automata.h:174-182 | the drop loop keeps every flag and exactly the non-epsilon edges of each state, in order |
| Elimination.EliminatedEdges | src/automata.h:158-183 | after elimination, the state count and every flag are unchanged. Taken as a set, each state's edges are exactly the non-epsilon edges of the states it reaches by epsilon paths in the original graph, itself included |
| Elimination.EliminatedWellFormed | src/automata.h:158-183 | after elimination, no edge carries the epsilon symbol; every target is a state and every label is in the alphabet |
| Elimination.EliminatedLoops | src/automata.h:158-183 | with only epsilon self-loops, elimination just deletes the epsilon edges |
| Elimination.DropEpsNone | src/automata.h:174-182 | with no epsilon edges, the drop loop changes nothing |
| Elimination.EliminateTwice | src/automata.h:158-183 | elimination is idempotent |
| SrcAutomata.Automata.CopyClosures | src/automata.h:159-171 | the copy loop over all states yields `CopyFrom` of the old states |
| SrcAutomata.Automata.CopyClosure | src/automata.h:160-170 | one state's round: its closure members' labelled edges are appended onto it, members in ascending order |
| SrcAutomata.Automata.CopyMember | src/automata.h:165-169 | one member's edges are appended onto the state, grouped by label in ascending label order, each group in insertion order |
| SrcAutomata.Automata.CopyLabel | src/automata.h:166-168 | one `equal_range` is appended onto the state, one edge at a time |
| SrcAutomata.Automata.CopyEdge | src/automata.h:167 | the quiet `add_transition` with flag `false` appends exactly that edge to the state and changes no flag, no other state and not the alphabet |
| SrcAutomata.Automata.DropEpsilon | src/automata.h:174-182 | the drop loop leaves `DropEps` of the old states |
| SrcAutomata.Automata.EpsilonEdgesElimination | src/automata.h:158-183 | the states become `Eliminated` of the old states and old alphabet; the alphabet, the aliases, the cursor and the initial id are unchanged |
| Subsets.Successors | src/automata.h:123-134 | the successor set of a subset under a label is exactly `Post`; its terminal flag holds iff some member of the successor set is terminal |
| Subsets.AddTargets | src/automata.h:126-131 | scanning one member's `equal_range` adds exactly its targets, and ORs in their flags |
| Subsets.Determinise | src/automata.h:111-154 | the result satisfies `IsSubsetDfa`: DFA state 0 is `{initial}` and non-terminal; every other state stands for a distinct non-empty subset and is terminal iff the subset holds a terminal NFA state; a state has an edge on label `c` exactly when its successor set under `c` is non-empty, and that edge leads to the id of the successor set; the alphabet is exactly the labels on DFA edges. It also satisfies `BfsOrder`: ids are dense and follow discovery order, each new subset found from an earlier one through labels tried in ascending order |
| Subsets.Expand | src/automata.h:117-153 | one turn of the BFS loop on the subset at the head of the queue (the same loop as automata.h:87-124, whose skip is at automata.h:90). It keeps `Round`, moved on by one: `Frame` (subset 0 is `{initial}`; every later subset is distinct, non-empty, holds only states and is `Next` of its parent; the DFA flags are `Accepting`; the alphabet is the DFA's edge labels), `Between` (every pair of a finished state and a label has its edge recorded, and the queued states have no edges yet) and `queue == subsets[done..]`. Either the table of seen subsets grows, within the subsets of the NFA's states, or the queue shrinks; this is the loop's termination measure |
| Subsets.ExpandLabels | src/automata.h:123-152 | every label of the alphabet is tried on the dequeued subset, in ascending order (the same loop as automata.h:92). Afterwards that subset's DFA state is finished: `Between` holds one state further on, the queue is the subsets after it, and the table of seen subsets has only grown. If no new subset was found, the queue is unchanged |
| Subsets.TryLabel | src/automata.h:124-151 | one label, the least one not yet tried. It computes the successor set and handles the three cases: an empty set adds nothing; a new set goes to `Discover`; a known set goes to `Revisit`. `Frame` and `Working` hold with that label marked as tried, so its edge (or its absence) is recorded |
| Subsets.Revisit | src/automata.h:147-151 | a successor set already in the table (the same branch as automata.h:115-119). Only the edge from the dequeued state to the set's known id is added, and the label joins the alphabet. `Frame` and `Working` hold with that label marked as tried |
| Subsets.Discover | src/automata.h:141-146 | a successor set seen for the first time (the same branch as automata.h:109-114). The set is appended to the subset list and to the queue. By `Frame`, the new DFA state at the subset's position has flag `Accepting(ns, toVset)` and the table numbers it by that position. By `Working`, the edge from state `done` on the label is recorded and leads to it. The table gains exactly the new key. `Frame` and `Working` hold with that label marked as tried |
| SrcAutomata.Automata.ThompsonNfa2Dfa | src/automata.h:104-155 | the states and the alphabet become a subset automaton of the *eliminated* NFA, with ids in BFS order and initial id 0; the alias table and the cursor are not reset |
| Language.SubsetDeterministic | src/automata.h:141-151 | every DFA state has at most one edge per label, and every target is a state |
| Language.SubsetTerminal | src/automata.h:113-115 | when the initial NFA state is non-terminal, every DFA state, state 0 included, is terminal iff its subset is accepting |
| Language.ReadSubsets | src/automata.h:188-209 | for any word, reading it on the DFA from state `j` answers the same as reading it over sets of NFA states from `subsets[j]`, with dead symbols skipped |
| Language.ReadRootSubsets | automata.h:130-151 | the same equality for the root reader, which stops early |
| Language.AcceptsAfterDeterminise | src/automata.h:188-209 | if no prefix of the word empties the subset, the DFA accepts exactly when the NFA's set of states after the whole word is accepting |
| Language.RootAcceptsAfterDeterminise | automata.h:130-141 | the root reader on the DFA accepts iff some non-empty prefix of the word leads the NFA to an accepting set |
| Language.InitialFlagLost | src/automata.h:113-115 | an NFA whose terminal initial state loops on `c` accepts `c`, yet DFA state 0 is non-terminal |
| Language.InitialFlagLostOnLoop | src/automata.h:113-115 | a concrete instance: the one-state terminal `a`-loop determinises to a non-terminal DFA state 0 |
| Language.ReadRootSetsPrefix | automata.h:130-141 | the early-exit read over sets accepts iff some non-empty prefix ends in an accepting set |
| Language.ReadSetsAlive | src/automata.h:188-199 | if no prefix empties the set, the skipping read answers whether the final set is accepting (false for the empty word) |
| Language.ReadStays | src/automata.h:188-209 | a word whose every symbol loops on the cursor's state answers that state's flag (false if the word is empty) |
| Language.ReadSetsNoTerminal | src/automata.h:188-199 | without terminal states, no word is accepted |
| Language.ReadSetsCycle | src/automata.h:188-199 | on a two-state cycle, `k` pairs of symbols return to the start set, which then reads the rest of the word |
| Language.ReadRootStep | automata.h:130-141 | one step of the root reader: false on a missing edge, true on a terminal target, otherwise continue from the target |
| Graph.FirstTarget | src/automata.h:202-203 | `find` fails iff no edge has the label; otherwise it gives the target of the first inserted edge with that label |
| Graph.Link | src/automata.h:74-76 | one `add_transition`: `from` gains exactly the new edge, the target's flag becomes old OR `h`, and nothing else changes |
| Graph.Without | src/automata.h:174-182 | removes exactly the edges with the given label and keeps every other label's `equal_range` |
| Graph.EraseFirst | src/automata.h:178-179 | one `erase(prey)` on a state's edges: removing the first edge with the label leaves every other label's edges as they were, and the label's `equal_range` loses one entry if it had any |
| Graph.PostWithin | src/automata.h:123-134 | successor sets of a well-formed automaton contain only states |
| SrcAutomata.Automata.Step | src/automata.h:201-209 | with a matching label, the cursor moves to the first such edge's target and the target's flag is returned; otherwise (-1, false) with the cursor unchanged; the states are never changed |
| SrcAutomata.Automata.ReadExpression | src/automata.h:188-199 | the empty word answers false; any other word answers `Read` from the old cursor, the value of its last step; afterwards the cursor is 0 |
| SrcAutomata.Automata.ReadString | src/automata.h:93-95 | the same answer as `ReadExpression` on the word |
| RootAutomata.Automata.constructor | automata.h:32-35 | one non-terminal state; begin() is the given initial id; the cursor is 0 and the alphabet empty |
| RootAutomata.Automata.Begin | automata.h:71-73 | begin() answers the initial id, which the constructor sets and determinisation resets to 0 |
| RootAutomata.Automata.AddState | automata.h:54-58 | appends one state with the given flag and returns the previous count |
| RootAutomata.Automata.AddTransition | automata.h:60-69 | an unknown `from` changes nothing. A known `from` with an unknown `to` keeps a dangling edge `(c, to)`, with the flags and the alphabet untouched. Otherwise `from` gains `(c, to)`, `to`'s flag becomes old OR `h`, and `c` joins the alphabet |
| RootAutomata.Automata.ThompsonNfa2Dfa | automata.h:77-126 | the result is a subset automaton of the stored NFA, epsilon being an ordinary label: at most one edge per label, ids in BFS order, initial id 0; the cursor is kept |
| RootAutomata.Automata.Step | automata.h:143-151 | the same as the src step: first matching edge, or (-1, false) with the cursor unchanged |
| RootAutomata.Automata.ReadExpression | automata.h:130-141 | the answer is `ReadRoot`: true at the first terminal target, false at the first missing edge or when the word runs out. The cursor stays where reading stopped |
| Scenarios.SimpleLoops | test/unit.cpp:6-16 | a terminal epsilon self-loop on state 0 accepts "#"; after adding a, b and c loops it accepts the long mixed word |
| Scenarios.LoopWordRead | test/unit.cpp:15-16 | the looping one-state automaton accepts that word |
| Scenarios.BuildCycle | test/unit.cpp:19-22 | the three `add_transition` calls build the `a`/`b` cycle with a terminal `c` arm |
| Scenarios.CycleDfa | test/unit.cpp:18-23 | for every word, that automaton's DFA answers as the NFA read over sets |
| Scenarios.CycleWord | test/unit.cpp:24-25 | `k` pairs "ab" bring the NFA back to `{0}` |
| Scenarios.CycleRead | test/unit.cpp:18-25 | after determinisation "ababab" is rejected |
| Scenarios.BuildLoopsArm | test/unit.cpp:30-35 | the four calls build state 0 with a, b and c loops and an `a` edge to a new non-terminal state |
| Scenarios.NoTerminalDfa | test/unit.cpp:36-38 | an automaton without terminal states determinises to one that accepts no word |
| Scenarios.LoopsArmRead | test/unit.cpp:29-38 | after determinisation "bbbcccbbba" is rejected |
| Scenarios.BuildLoopTail | test/unit.cpp:45-50 | the five calls build the cycle, the terminal `c` arm, the terminal `m` state and an epsilon self-loop on state 0 |
| Scenarios.LoopTailDrop | test/unit.cpp:50-52 | the epsilon self-loop is simply deleted by elimination |
| Scenarios.TailVerdict | test/unit.cpp:53-58 | any number of "ab" pairs followed by `c` and then `m`s is accepted iff at most one `m` follows |
| Scenarios.LoopTailReads | test/unit.cpp:44-58 | after determinisation "abababc" and "abababababcm" are accepted and "abababcmmmm" is rejected |
| Scenarios.BuildFan | test/unit.cpp:62-66 | the loop builds state 0 with `a` edges to 1, 2 and 3, each terminal and looping on its own letter |
| Scenarios.FanDfa | test/unit.cpp:67 | for every word, that automaton's DFA answers as the NFA read over sets |
| Scenarios.FanLoopWord | test/unit.cpp:68-71 | `a` followed by one letter repeated is accepted |
| Scenarios.FanDeadWord | test/unit.cpp:70 | "aa" followed by `b`s is rejected |
| Scenarios.FanNoA | test/unit.cpp:72 | a word without `a` is rejected |
| Scenarios.FanReads | test/unit.cpp:61-72 | after determinisation `read_string` gives true, true, false, true, false on the five test words |

## Left out

- The subset hash `automata_stuff::hash` (src/automata.h:20-28, automata.h:18-26) is left out.
  - Subsets are identified by exact set equality.
  - So the model does not reproduce the source's merging of two subsets whose digests collide.
- The `Automata(size_t)` constructor (src/automata.h:39-45, automata.h:37-43) is left out.
  - No test or caller uses it.
  - It numbers states from 1 and leaves the epsilon symbol unset.
- Console output is not modelled.
  - The root `add_transition` prints its failure; the model returns `OutOfRange` instead.
  - When `at()` finds no alias, it prints and returns an uninitialised value; the model returns `None`.
- The move assignment (src/automata.h:47-54, automata.h:45-52) is modelled only through its effect on the fields. It does not carry over the alias table or the cursor, so both keep their old values after `ThompsonNfa2Dfa`, as in the source.
- Genericity is dropped: the label type is fixed to `char`.
  - The unused `is_initial` flag is dropped.
  - The `check` argument of the src `add_transition` is dropped.
  - Its `quiet` argument is fixed to its default, `true`; `false` would always throw.
- Two default arguments are not modelled: the root constructor's `initial_id = 0` (automata.h:32), which callers of `RootAutomata.Automata.constructor` pass explicitly, and `read_string`'s default word `"only_for_testing"` (src/automata.h:93), which callers of `SrcAutomata.Automata.ReadString` pass explicitly.
- Ids are unbounded naturals. The `int` in `step`'s result (-1 or an id) is not bounded to 32 bits.
- The source keeps an `id` field in each state. The model uses the position in the vector instead.
  - In src/automata.h the two always agree: the constructor gives state 0 the id 0 (src/automata.h:37), and `add_state` gives the next position. `epsilon_edges_elimination` and `drop_transition` read the field (src/automata.h:164, 167, 88).
  - In the root automata.h they differ when the constructor is given `initial_id != 0`: state 0 then carries the id `initial_id` (automata.h:34). The root code never reads the field, so nothing in the model depends on it.
- SrcAutomata.Automata.Step requires the cursor to name a state.
  - The source indexes `states[current_state_id]` unchecked.
  - A cursor left stale by a determinisation is undefined behaviour there.
- SrcAutomata.Automata.ReadExpression requires the cursor to name a state when the word is non-empty, for the same reason.
- SrcAutomata.Automata.ReadString has the same requirement.
- SrcAutomata.Automata.DropTransition requires `from` to name a state, because the source indexes `states[from]` unchecked.
- RootAutomata.Automata.ThompsonNfa2Dfa requires the initial id to name a state, and every edge target to name a state.
  - The first requirement matches the source: it indexes `states[initial]` unchecked (automata.h:90), so an initial id past the vector is undefined behaviour there.
  - The second is stronger than the source needs. The source only follows edges whose label is in the alphabet (automata.h:93-96), and a failed `add_transition` leaves a dangling edge without adding its label (automata.h:63-65).
  - Excluded input: `Automata a('#'); a.add_transition(0, 'x', 5); a.thompson_nfa2dfa();`. The dangling `x` edge is never read and the source is well-defined, but the model does not cover it.
- RootAutomata.Automata.Step requires the cursor, and the first matching edge's target, to name states, for the same reason.
- RootAutomata.Automata.ReadExpression requires the cursor, and every edge target, to name states. This is stronger than the source needs in two ways.
  - The source reads nothing for the empty word (automata.h:132), so any cursor is fine there. Excluded input: the empty word with a cursor that determinisation left past the new state vector.
  - The source reads only the edges it follows. Excluded input: any automaton holding a dangling edge from a failed `add_transition`, such as `add_transition(0, 'x', 5)` followed by `read_expression` of `"y"`. The source answers false there.
- Language.SubsetTerminal and the reading lemmas built on it require the initial NFA state to be non-terminal. The source always makes DFA state 0 non-terminal, and `InitialFlagLost` states what happens otherwise.
- The remaining steps of the unit tests are not modelled:
  - `toggle_terminal(1)` on the determinised automaton, at test/unit.cpp:40-42. This needs the concrete numbering the determinisation gives this automaton's subsets, which the lemmas describe only through `IsSubsetDfa` and `BfsOrder`.
  - The second automaton of test/unit.cpp:74-90, which runs elimination on a fan of epsilon edges and reads before and after determinisation. The elimination and reading lemmas above apply to it, but its concrete answers are not proved.
- main.cpp and the test `main` are not part of this model.
