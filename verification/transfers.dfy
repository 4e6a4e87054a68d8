/** count_min_transfers_bfs: the least number of line changes on a trip through the
    simplified network. A traveller is at a station on a line; boarding any line of
    the source station is free, riding an edge on the line already taken costs
    nothing and riding it on another of the edge's lines costs one transfer. The
    search keeps the best count found for every (station, line) state and queues
    a state again whenever its count improves. */
module Transfers {
  import opened Core
  import opened Graphs

  /** The graph the indicators work on: the simplified network, the transfer and
      terminal flags of its nodes, the lines of every node's station and the lines
      of every edge. */
  datatype FriGraph = FriGraph(
    graph: Graph,
    transfer: set<StationId>,
    terminal: set<StationId>,
    nodeLines: map<StationId, set<Line>>,
    edgeLines: map<Edge, set<Line>>)

  /** G.nodes[v].get('lines', set()). */
  function NodeLines(fg: FriGraph, v: StationId): set<Line>
  {
    if v in fg.nodeLines then fg.nodeLines[v] else {}
  }

  /** G.edges[e].get('lines', set()). */
  function EdgeLinesOf(fg: FriGraph, e: Edge): set<Line>
  {
    if e in fg.edgeLines then fg.edgeLines[e] else {}
  }

  /** Every line of an edge is a line of both of its stations. */
  ghost predicate LinesAtEnds(fg: FriGraph)
  {
    forall e, l :: e in fg.graph.edges && l in EdgeLinesOf(fg, e) ==> l in NodeLines(fg, e.lo) && l in NodeLines(fg, e.hi)
  }

  /** A traveller at a station on a line. */
  datatype State = State(station: StationId, line: Line)

  /** A queue entry: a state and the transfers counted on the way to it. */
  datatype Entry = Entry(state: State, transfers: nat)

  /** From `x` the traveller can ride to the neighbouring station of `y` on `y`'s line. */
  predicate Step(fg: FriGraph, x: State, y: State)
  {
    && y.station in fg.graph.nodes
    && Adjacent(fg.graph, x.station, y.station)
    && y.line in EdgeLinesOf(fg, Key(x.station, y.station))
  }

  function Cost(x: State, y: State): nat
  {
    if y.line == x.line then 0 else 1
  }

  /** A trip from `source`, boarded on one of the source's lines. */
  ghost predicate IsWalk(fg: FriGraph, source: StationId, w: seq<State>)
  {
    if |w| <= 1 then |w| == 1 && w[0].station == source && w[0].line in NodeLines(fg, source)
    else IsWalk(fg, source, w[..|w| - 1]) && Step(fg, w[|w| - 2], w[|w| - 1])
  }

  /** The number of line changes along a trip. */
  function WalkCost(w: seq<State>): nat
  {
    if |w| <= 1 then 0 else WalkCost(w[..|w| - 1]) + Cost(w[|w| - 2], w[|w| - 1])
  }

  /** `w` is a trip from `source` that ends in state `x` after `c` transfers. */
  ghost predicate WalkTo(fg: FriGraph, source: StationId, w: seq<State>, x: State, c: nat)
  {
    IsWalk(fg, source, w) && w[|w| - 1] == x && WalkCost(w) == c
  }

  /** Some trip from `source` ends at station `target` after `c` transfers. */
  ghost predicate Reaches(fg: FriGraph, source: StationId, target: StationId, c: nat)
  {
    exists w: seq<State> :: IsWalk(fg, source, w) && w[|w| - 1].station == target && WalkCost(w) == c
  }

  /** `r` is what count_min_transfers_bfs returns: the least number of transfers of
      a trip from `source` to `target`, or `numLines` when no trip gets there. */
  ghost predicate IsMinTransfers(fg: FriGraph, source: StationId, target: StationId, numLines: nat, r: nat)
  {
    if exists c :: Reaches(fg, source, target, c)
    then Reaches(fg, source, target, r) && forall c :: Reaches(fg, source, target, c) ==> r <= c
    else r == numLines
  }

  lemma ExtendWalk(fg: FriGraph, source: StationId, w: seq<State>, x: State, t: nat, y: State)
    requires WalkTo(fg, source, w, x, t) && Step(fg, x, y)
    ensures WalkTo(fg, source, w + [y], y, t + Cost(x, y))
  {
    var w' := w + [y];
    assert w'[..|w'| - 1] == w;
  }

  // ---------------------------------------------------------------------------
  // The state space

  /** Every line a state can carry: the source's lines and the lines of the edges. */
  function AllLines(fg: FriGraph, source: StationId): set<Line>
  {
    NodeLines(fg, source) + set e, l | e in fg.edgeLines && l in fg.edgeLines[e] :: l
  }

  function Universe(fg: FriGraph, source: StationId): set<State>
  {
    set v, l | v in fg.graph.nodes && l in AllLines(fg, source) :: State(v, l)
  }

  /** The entries a run can ever queue: a state and a count no larger than the number of states. */
  function Pairs(universe: set<State>): set<Entry>
  {
    set x, c: nat | x in universe && c <= |universe| :: Entry(x, c)
  }

  /** Every state a step leads to is in `universe`. */
  ghost predicate Covers(fg: FriGraph, universe: set<State>)
  {
    forall x, y :: Step(fg, x, y) ==> y in universe
  }

  /** A finite set of states that holds the boarding states and every state a step leads to. */
  lemma UniverseFor(fg: FriGraph, source: StationId) returns (universe: set<State>)
    requires source in fg.graph.nodes
    ensures Covers(fg, universe)
    ensures forall l :: l in NodeLines(fg, source) ==> State(source, l) in universe
  {
    universe := Universe(fg, source);
    forall x, y | Step(fg, x, y)
      ensures y in universe
    {
      var e := Key(x.station, y.station);
      assert e in fg.edgeLines && y.line in fg.edgeLines[e];
      assert y.line in AllLines(fg, source);
    }
  }

  // ---------------------------------------------------------------------------
  // Invariants of the search

  /** Every entry ever queued, with a trip that achieves it. */
  type History = map<Entry, seq<State>>

  /** Each queued entry is achieved by its trip, and its state has a count at least as good. */
  ghost predicate Witnessed(fg: FriGraph, source: StationId, visited: map<State, nat>, used: History)
  {
    forall e :: e in used ==>
      WalkTo(fg, source, used[e], e.state, e.transfers) && e.state in visited && visited[e.state] <= e.transfers
  }

  /** Every count is below the number of visited states and was queued. */
  ghost predicate Labels(visited: map<State, nat>, used: History)
  {
    forall x :: x in visited ==> visited[x] < |visited| && Entry(x, visited[x]) in used
  }

  ghost predicate QueueOk(visited: map<State, nat>, queue: seq<Entry>, used: History)
  {
    forall i :: 0 <= i < |queue| ==> queue[i] in used && queue[i].transfers < |visited|
  }

  /** Boarding at the source is free. */
  ghost predicate StartsZero(fg: FriGraph, source: StationId, visited: map<State, nat>)
  {
    forall l :: l in NodeLines(fg, source) ==> State(source, l) in visited && visited[State(source, l)] == 0
  }

  /** The best count found so far is achieved by `bestWalk`. */
  ghost predicate BestOk(fg: FriGraph, source: StationId, target: StationId, best: Option<nat>, bestWalk: seq<State>)
  {
    best.Some? ==> IsWalk(fg, source, bestWalk) && bestWalk[|bestWalk| - 1].station == target && WalkCost(bestWalk) == best.value
  }

  /** What holds between the counts, the queue and the history in any round. */
  ghost predicate Sound(fg: FriGraph, source: StationId, universe: set<State>,
                        visited: map<State, nat>, queue: seq<Entry>, used: History)
  {
    && visited.Keys <= universe
    && Labels(visited, used)
    && QueueOk(visited, queue, used)
    && StartsZero(fg, source, visited)
    && Witnessed(fg, source, visited, used)
    && Bounded(used, universe)
  }

  /** Every entry ever queued carries a state of `universe` and a count no larger than its size. */
  ghost predicate Bounded(used: History, universe: set<State>)
  {
    forall e :: e in used ==> e.state in universe && e.transfers <= |universe|
  }

  /** Queuing a new entry shrinks what is left of the entries a run can ever queue. */
  lemma Fewer(universe: set<State>, used: History, used': History)
    requires Bounded(used', universe) && used.Keys < used'.Keys
    ensures Pairs(universe) - used'.Keys < Pairs(universe) - used.Keys
  {
    assert exists e :: e in used'.Keys && e !in used.Keys;
    var e :| e in used'.Keys && e !in used.Keys;
    assert e == Entry(e.state, e.transfers);
    assert e in Pairs(universe) - used.Keys;
  }

  /** All steps out of `x` are accounted for by the counts of `visited`. */
  ghost predicate RelaxedAt(fg: FriGraph, visited: map<State, nat>, x: State)
    requires x in visited
  {
    forall y :: Step(fg, x, y) ==> y in visited && visited[y] <= visited[x] + Cost(x, y)
  }

  /** A visited state is still queued with its count, or, at the target, no better
      than the best found, or, elsewhere, has had all its steps taken. */
  ghost predicate Settled(fg: FriGraph, target: StationId, visited: map<State, nat>, queue: seq<Entry>,
                          best: Option<nat>, x: State)
    requires x in visited
  {
    || Entry(x, visited[x]) in queue
    || (x.station == target && best.Some? && best.value <= visited[x])
    || (x.station != target && RelaxedAt(fg, visited, x))
  }

  ghost predicate AllSettled(fg: FriGraph, target: StationId, visited: map<State, nat>, queue: seq<Entry>, best: Option<nat>)
  {
    forall x :: x in visited ==> Settled(fg, target, visited, queue, best, x)
  }

  /** The invariant of the outer loop. */
  ghost predicate Search(fg: FriGraph, source: StationId, target: StationId, universe: set<State>,
                         visited: map<State, nat>, queue: seq<Entry>, used: History, best: Option<nat>)
  {
    && Sound(fg, source, universe, visited, queue, used)
    && AllSettled(fg, target, visited, queue, best)
  }

  /** While the steps out of the popped entry (x, t) are taken: the state at the pop
      was (visited0, queue0 after the pop, used0); the steps to `done` are taken. */
  ghost predicate Relaxing(fg: FriGraph, source: StationId, target: StationId, universe: set<State>,
                           x: State, t: nat, visited0: map<State, nat>, queue0: seq<Entry>, used0: History,
                           visited: map<State, nat>, queue: seq<Entry>, used: History, best: Option<nat>, done: set<State>)
  {
    && Sound(fg, source, universe, visited, queue, used)
    && Progress(fg, target, x, t, visited0, queue0, used0, visited, queue, used, best, done)
  }

  /** How the counts, queue and history relate to those at the pop of (x, t). */
  ghost predicate Progress(fg: FriGraph, target: StationId,
                           x: State, t: nat, visited0: map<State, nat>, queue0: seq<Entry>, used0: History,
                           visited: map<State, nat>, queue: seq<Entry>, used: History, best: Option<nat>, done: set<State>)
  {
    && x in visited0 && x.station != target && Entry(x, t) in used0 && t < |visited0|
    && (forall z :: z in visited0 ==> z in visited && visited[z] <= visited0[z])
    && x in visited && visited[x] == visited0[x]
    && |queue0| <= |queue| && queue[..|queue0|] == queue0
    && (used0.Keys < used.Keys || (used.Keys == used0.Keys && |queue| == |queue0|))
    && (forall z :: z in visited ==>
          || Entry(z, visited[z]) in queue
          || (z in visited0 && visited[z] == visited0[z] && (
                || (z.station == target && best.Some? && best.value <= visited[z])
                || (z.station != target && RelaxedAt(fg, visited, z))
                || (z == x && t == visited0[z]))))
    && (forall y :: y in done ==> y in visited && visited[y] <= t + Cost(x, y))
  }

  // ---------------------------------------------------------------------------
  // The steps of the search

  lemma SearchStart(fg: FriGraph, source: StationId, target: StationId, universe: set<State>,
                    visited: map<State, nat>, queue: seq<Entry>, used: History)
    requires forall l :: l in NodeLines(fg, source) ==> State(source, l) in universe
    requires forall x :: x in visited <==> x.station == source && x.line in NodeLines(fg, source)
    requires forall x :: x in visited ==> visited[x] == 0 && Entry(x, 0) in queue && Entry(x, 0) in used
    requires forall i :: 0 <= i < |queue| ==> queue[i].state in visited && queue[i].transfers == 0 && queue[i] in used
    requires forall e :: e in used ==> e.state in visited && e.transfers == 0 && used[e] == [e.state]
    ensures Search(fg, source, target, universe, visited, queue, used, None)
  {
    forall e | e in used
      ensures WalkTo(fg, source, used[e], e.state, e.transfers)
    {
      assert IsWalk(fg, source, [e.state]);
    }
    forall x | x in visited
      ensures x in universe && 0 < |visited|
    {
      assert x == State(source, x.line);
    }
  }

  lemma PopQueue(visited: map<State, nat>, queue: seq<Entry>, used: History)
    requires QueueOk(visited, queue, used) && queue != []
    ensures QueueOk(visited, queue[1..], used)
  {
    forall i | 0 <= i < |queue[1..]|
      ensures queue[1..][i] in used && queue[1..][i].transfers < |visited|
    {
      assert queue[1..][i] == queue[i + 1];
    }
  }

  /** After a pop, a visited state is still accounted for, or it is the popped entry. */
  lemma PopSettled(fg: FriGraph, target: StationId, visited: map<State, nat>, queue: seq<Entry>, best: Option<nat>, z: State)
    requires AllSettled(fg, target, visited, queue, best) && queue != [] && z in visited
    ensures || Entry(z, visited[z]) in queue[1..]
            || (z.station == target && best.Some? && best.value <= visited[z])
            || (z.station != target && RelaxedAt(fg, visited, z))
            || Entry(z, visited[z]) == queue[0]
  {
    assert Settled(fg, target, visited, queue, best, z);
    assert queue == [queue[0]] + queue[1..];
  }

  /** Popping an entry at the target station records its count when it is better. */
  lemma PopTarget(fg: FriGraph, source: StationId, target: StationId, universe: set<State>,
                  visited: map<State, nat>, queue: seq<Entry>, used: History, best: Option<nat>, bestWalk: seq<State>)
    requires Search(fg, source, target, universe, visited, queue, used, best)
    requires BestOk(fg, source, target, best, bestWalk)
    requires queue != [] && queue[0].state.station == target
    ensures queue[0] in used
    ensures var t := queue[0].transfers;
      var improves := best.None? || t < best.value;
      && Search(fg, source, target, universe, visited, queue[1..], used, if improves then Some(t) else best)
      && BestOk(fg, source, target, if improves then Some(t) else best, if improves then used[queue[0]] else bestWalk)
  {
    var e := queue[0];
    var t := e.transfers;
    var best' := if best.None? || t < best.value then Some(t) else best;
    assert e in used;
    assert WalkTo(fg, source, used[e], e.state, t);
    PopQueue(visited, queue, used);
    forall z | z in visited
      ensures Settled(fg, target, visited, queue[1..], best', z)
    {
      PopSettled(fg, target, visited, queue, best, z);
      if Entry(z, visited[z]) == e {
        assert visited[z] <= t;
      }
    }
  }

  /** Popping an entry elsewhere starts taking its steps. */
  lemma PopRelax(fg: FriGraph, source: StationId, target: StationId, universe: set<State>,
                 visited: map<State, nat>, queue: seq<Entry>, used: History, best: Option<nat>)
    requires Search(fg, source, target, universe, visited, queue, used, best)
    requires queue != [] && queue[0].state.station != target
    ensures Relaxing(fg, source, target, universe, queue[0].state, queue[0].transfers, visited, queue[1..], used,
                     visited, queue[1..], used, best, {})
  {
    var e := queue[0];
    assert e in used && e.transfers < |visited|;
    PopQueue(visited, queue, used);
    forall z | z in visited
      ensures || Entry(z, visited[z]) in queue[1..]
              || (z.station == target && best.Some? && best.value <= visited[z])
              || (z.station != target && RelaxedAt(fg, visited, z))
              || (z == e.state && e.transfers == visited[z])
    {
      PopSettled(fg, target, visited, queue, best, z);
    }
    assert queue[1..][..|queue[1..]|] == queue[1..];
  }

  /** A count that does not improve changes nothing. */
  lemma RelaxKeep(fg: FriGraph, source: StationId, target: StationId, universe: set<State>,
                  x: State, t: nat, visited0: map<State, nat>, queue0: seq<Entry>, used0: History,
                  visited: map<State, nat>, queue: seq<Entry>, used: History, best: Option<nat>, done: set<State>, y: State)
    requires Relaxing(fg, source, target, universe, x, t, visited0, queue0, used0, visited, queue, used, best, done)
    requires Step(fg, x, y) && y in visited && visited[y] <= t + Cost(x, y)
    ensures Relaxing(fg, source, target, universe, x, t, visited0, queue0, used0, visited, queue, used, best, done + {y})
  {
  }

  /** An improved count for `y` is recorded and `y` is queued again, with the trip
      through `x` as its witness. */
  lemma RelaxImprove(fg: FriGraph, source: StationId, target: StationId, universe: set<State>,
                     x: State, t: nat, visited0: map<State, nat>, queue0: seq<Entry>, used0: History,
                     visited: map<State, nat>, queue: seq<Entry>, used: History, best: Option<nat>, done: set<State>,
                     y: State, c: nat)
    requires Covers(fg, universe)
    requires Relaxing(fg, source, target, universe, x, t, visited0, queue0, used0, visited, queue, used, best, done)
    requires Step(fg, x, y) && c == t + Cost(x, y) && (y !in visited || visited[y] > c)
    ensures Entry(x, t) in used
    ensures Relaxing(fg, source, target, universe, x, t, visited0, queue0, used0,
                     visited[y := c], queue + [Entry(y, c)], used[Entry(y, c) := used[Entry(x, t)] + [y]], best, done + {y})
  {
    assert |visited0| <= |visited| by {
      SubsetSize(visited0.Keys, visited.Keys);
    }
    ImproveSound(fg, source, universe, x, t, visited, queue, used, y, c);
    ImproveProgress(fg, target, x, t, visited0, queue0, used0, visited, queue, used, best, done, y, c, used[Entry(x, t)] + [y]);
  }

  lemma ImproveSound(fg: FriGraph, source: StationId, universe: set<State>,
                     x: State, t: nat, visited: map<State, nat>, queue: seq<Entry>, used: History, y: State, c: nat)
    requires Covers(fg, universe)
    requires Sound(fg, source, universe, visited, queue, used)
    requires Entry(x, t) in used && t < |visited|
    requires Step(fg, x, y) && c == t + Cost(x, y) && (y !in visited || visited[y] > c)
    ensures Sound(fg, source, universe, visited[y := c], queue + [Entry(y, c)], used[Entry(y, c) := used[Entry(x, t)] + [y]])
    ensures Entry(y, c) !in used
  {
    var visited' := visited[y := c];
    var w := used[Entry(x, t)] + [y];
    var used' := used[Entry(y, c) := w];
    assert WalkTo(fg, source, used[Entry(x, t)], x, t);
    ExtendWalk(fg, source, used[Entry(x, t)], x, t, y);
    ImproveBounded(universe, visited, used, y, c, w);
    assert used'.Keys == used.Keys + {Entry(y, c)};
    ImproveLabels(visited, used, y, c, w);
    ImproveQueue(visited, queue, used, y, c, w);
    ImproveStarts(fg, source, visited, y, c);
    ImproveWitnessed(fg, source, visited, used, y, c, w);
  }

  lemma ImproveBounded(universe: set<State>, visited: map<State, nat>, used: History, y: State, c: nat, w: seq<State>)
    requires visited.Keys <= universe && y in universe && Bounded(used, universe)
    requires c <= |visited| && (y in visited ==> visited[y] > c)
    ensures visited[y := c].Keys <= universe
    ensures |visited| <= |visited[y := c]| <= |universe|
    ensures y !in visited ==> |visited[y := c]| == |visited| + 1
    ensures Bounded(used[Entry(y, c) := w], universe)
  {
    ImproveSize(visited, y, c);
    SubsetSize(visited[y := c].Keys, universe);
  }

  lemma ImproveSize(visited: map<State, nat>, y: State, c: nat)
    requires y in visited ==> visited[y] > c
    ensures |visited| <= |visited[y := c]|
    ensures y !in visited ==> |visited[y := c]| == |visited| + 1
  {
    if y !in visited {
      assert visited[y := c].Keys == visited.Keys + {y};
    } else {
      assert visited[y := c].Keys == visited.Keys;
    }
  }

  lemma ImproveLabels(visited: map<State, nat>, used: History, y: State, c: nat, w: seq<State>)
    requires Labels(visited, used)
    requires |visited| <= |visited[y := c]| && c < |visited[y := c]|
    ensures Labels(visited[y := c], used[Entry(y, c) := w])
  {
    var visited' := visited[y := c];
    forall z | z in visited'
      ensures visited'[z] < |visited'| && Entry(z, visited'[z]) in used[Entry(y, c) := w]
    {
      if z != y {
        assert visited'[z] == visited[z];
      }
    }
  }

  lemma ImproveQueue(visited: map<State, nat>, queue: seq<Entry>, used: History, y: State, c: nat, w: seq<State>)
    requires QueueOk(visited, queue, used)
    requires |visited| <= |visited[y := c]| && c < |visited[y := c]|
    ensures QueueOk(visited[y := c], queue + [Entry(y, c)], used[Entry(y, c) := w])
  {
    var queue' := queue + [Entry(y, c)];
    forall i | 0 <= i < |queue'|
      ensures queue'[i] in used[Entry(y, c) := w] && queue'[i].transfers < |visited[y := c]|
    {
      if i < |queue| {
        assert queue'[i] == queue[i];
      }
    }
  }

  lemma ImproveStarts(fg: FriGraph, source: StationId, visited: map<State, nat>, y: State, c: nat)
    requires StartsZero(fg, source, visited)
    requires y in visited ==> visited[y] > c
    ensures StartsZero(fg, source, visited[y := c])
  {
    forall l | l in NodeLines(fg, source)
      ensures State(source, l) in visited[y := c] && visited[y := c][State(source, l)] == 0
    {
      assert State(source, l) in visited && visited[State(source, l)] == 0;
    }
  }

  lemma ImproveWitnessed(fg: FriGraph, source: StationId, visited: map<State, nat>, used: History,
                         y: State, c: nat, w: seq<State>)
    requires Witnessed(fg, source, visited, used) && WalkTo(fg, source, w, y, c)
    requires y in visited ==> visited[y] > c
    ensures Witnessed(fg, source, visited[y := c], used[Entry(y, c) := w])
    ensures Entry(y, c) !in used
  {
    var visited' := visited[y := c];
    var used' := used[Entry(y, c) := w];
    forall e | e in used'
      ensures WalkTo(fg, source, used'[e], e.state, e.transfers) && e.state in visited' && visited'[e.state] <= e.transfers
    {
      if e != Entry(y, c) {
        assert WalkTo(fg, source, used[e], e.state, e.transfers) && e.state in visited && visited[e.state] <= e.transfers;
      }
    }
  }

  lemma ImproveProgress(fg: FriGraph, target: StationId,
                        x: State, t: nat, visited0: map<State, nat>, queue0: seq<Entry>, used0: History,
                        visited: map<State, nat>, queue: seq<Entry>, used: History, best: Option<nat>, done: set<State>,
                        y: State, c: nat, w: seq<State>)
    requires Progress(fg, target, x, t, visited0, queue0, used0, visited, queue, used, best, done)
    requires Step(fg, x, y) && c == t + Cost(x, y) && (y !in visited || visited[y] > c) && Entry(y, c) !in used
    ensures Progress(fg, target, x, t, visited0, queue0, used0,
                     visited[y := c], queue + [Entry(y, c)], used[Entry(y, c) := w], best, done + {y})
  {
    var visited' := visited[y := c];
    var queue' := queue + [Entry(y, c)];
    assert y != x;
    assert used[Entry(y, c) := w].Keys == used.Keys + {Entry(y, c)};
    forall z | z in visited && z != y && z.station != target && RelaxedAt(fg, visited, z)
      ensures RelaxedAt(fg, visited', z)
    {
    }
    forall z | z in visited' && z != y
      ensures Entry(z, visited'[z]) in queue ==> Entry(z, visited'[z]) in queue'
    {
    }
    assert queue'[..|queue0|] == queue0 by {
      assert queue'[..|queue|] == queue;
    }
  }

  /** All steps out of the popped entry taken: the outer invariant holds again. */
  lemma RelaxDone(fg: FriGraph, source: StationId, target: StationId, universe: set<State>,
                  x: State, t: nat, visited0: map<State, nat>, queue0: seq<Entry>, used0: History,
                  visited: map<State, nat>, queue: seq<Entry>, used: History, best: Option<nat>, done: set<State>)
    requires Relaxing(fg, source, target, universe, x, t, visited0, queue0, used0, visited, queue, used, best, done)
    requires forall y :: Step(fg, x, y) ==> y in done
    ensures Search(fg, source, target, universe, visited, queue, used, best)
  {
    forall z | z in visited
      ensures Settled(fg, target, visited, queue, best, z)
    {
      if z == x && t == visited0[z] && Entry(z, visited[z]) !in queue {
        assert RelaxedAt(fg, visited, x);
      }
    }
  }

  // ---------------------------------------------------------------------------
  // What the search finds

  lemma {:induction false} WalkPrefix(fg: FriGraph, source: StationId, w: seq<State>, k: nat)
    requires IsWalk(fg, source, w) && 1 <= k <= |w|
    ensures IsWalk(fg, source, w[..k])
    decreases |w|
  {
    if k < |w| {
      assert w[..k] == w[..|w| - 1][..k];
      WalkPrefix(fg, source, w[..|w| - 1], k);
    } else {
      assert w[..k] == w;
    }
  }

  lemma WalkCostPrefix(w: seq<State>, k: nat)
    requires 1 <= k <= |w|
    ensures WalkCost(w[..k]) <= WalkCost(w)
    decreases |w|
  {
    if k < |w| {
      assert w[..k] == w[..|w| - 1][..k];
      WalkCostPrefix(w[..|w| - 1], k);
    } else {
      assert w[..k] == w;
    }
  }

  /** Once the queue is empty, every trip that meets the target only at its end ends
      in a visited state whose count is at most the trip's transfers. */
  lemma {:induction false} CountsAreLeast(fg: FriGraph, source: StationId, target: StationId,
                                          visited: map<State, nat>, best: Option<nat>, w: seq<State>)
    requires StartsZero(fg, source, visited) && AllSettled(fg, target, visited, [], best)
    requires IsWalk(fg, source, w)
    requires forall i :: 0 <= i < |w| - 1 ==> w[i].station != target
    ensures w[|w| - 1] in visited && visited[w[|w| - 1]] <= WalkCost(w)
  {
    if |w| > 1 {
      var v := w[..|w| - 1];
      assert IsWalk(fg, source, v);
      CountsAreLeast(fg, source, target, visited, best, v);
      var x := w[|w| - 2];
      assert Settled(fg, target, visited, [], best, x);
      assert Step(fg, x, w[|w| - 1]);
    }
  }

  /** The first position of a trip at `target`. */
  function FirstAt(w: seq<State>, target: StationId): (j: nat)
    requires exists i :: 0 <= i < |w| && w[i].station == target
    ensures j < |w| && w[j].station == target
    ensures forall i :: 0 <= i < j ==> w[i].station != target
  {
    if w[0].station == target then 0
    else
      assert exists i :: 0 <= i < |w[1..]| && w[1..][i].station == target by {
        var i :| 0 <= i < |w| && w[i].station == target;
        assert w[1..][i - 1] == w[i];
      }
      1 + FirstAt(w[1..], target)
  }

  /** Once the queue is empty, no trip to the target has fewer transfers than the best found. */
  lemma BestAtMost(fg: FriGraph, source: StationId, target: StationId,
                   visited: map<State, nat>, best: Option<nat>, c: nat)
    requires StartsZero(fg, source, visited) && AllSettled(fg, target, visited, [], best)
    requires Reaches(fg, source, target, c)
    ensures best.Some? && best.value <= c
  {
    var w: seq<State> :| IsWalk(fg, source, w) && w[|w| - 1].station == target && WalkCost(w) == c;
    var j := FirstAt(w, target);
    var v := w[..j + 1];
    WalkPrefix(fg, source, w, j + 1);
    CountsAreLeast(fg, source, target, visited, best, v);
    WalkCostPrefix(w, j + 1);
    assert Settled(fg, target, visited, [], best, v[j]);
  }

  /** Once the queue is empty, the best count is what the search promises. */
  lemma SearchDone(fg: FriGraph, source: StationId, target: StationId, universe: set<State>,
                   visited: map<State, nat>, used: History, best: Option<nat>, bestWalk: seq<State>, numLines: nat)
    requires Search(fg, source, target, universe, visited, [], used, best)
    requires BestOk(fg, source, target, best, bestWalk)
    ensures IsMinTransfers(fg, source, target, numLines, if best.Some? then best.value else numLines)
  {
    forall c | Reaches(fg, source, target, c)
      ensures best.Some? && best.value <= c
    {
      BestAtMost(fg, source, target, visited, best, c);
    }
  }

  // ---------------------------------------------------------------------------
  // The search

  /** count_min_transfers_bfs(G, source, target): the least number of transfers of a
      trip from `source` to `target`, or `numLines` when no trip reaches it. */
  method MinTransfers(fg: FriGraph, source: StationId, target: StationId, numLines: nat) returns (r: nat)
    requires source in fg.graph.nodes
    ensures IsMinTransfers(fg, source, target, numLines, r)
  {
    ghost var universe := UniverseFor(fg, source);
    var visited, queue;
    ghost var used;
    visited, queue, used := Board(fg, source, target, universe);
    var best: Option<nat> := None;
    ghost var bestWalk: seq<State> := [];
    while queue != []
      invariant Search(fg, source, target, universe, visited, queue, used, best)
      invariant BestOk(fg, source, target, best, bestWalk)
      decreases Pairs(universe) - used.Keys, |queue|
    {
      visited, queue, used, best, bestWalk := Round(fg, source, target, universe, visited, queue, used, best, bestWalk);
    }
    SearchDone(fg, source, target, universe, visited, used, best, bestWalk, numLines);
    r := if best.Some? then best.value else numLines;
  }

  /** The boarding loop: every line of the source is queued with no transfers. */
  method Board(fg: FriGraph, source: StationId, ghost target: StationId, ghost universe: set<State>)
    returns (visited: map<State, nat>, queue: seq<Entry>, ghost used: History)
    requires forall l :: l in NodeLines(fg, source) ==> State(source, l) in universe
    ensures Search(fg, source, target, universe, visited, queue, used, None)
  {
    queue, visited, used := [], map[], map[];
    var sourceLines := NodeLines(fg, source);
    var rest := sourceLines;
    while rest != {}
      invariant rest <= sourceLines
      invariant forall x :: x in visited <==> x.station == source && x.line in sourceLines - rest
      invariant forall x :: x in visited ==> visited[x] == 0 && Entry(x, 0) in queue && Entry(x, 0) in used
      invariant forall i :: 0 <= i < |queue| ==> queue[i].state in visited && queue[i].transfers == 0 && queue[i] in used
      invariant forall e :: e in used ==> e.state in visited && e.transfers == 0 && used[e] == [e.state]
      decreases rest
    {
      var line :| line in rest;
      var start := State(source, line);
      queue := queue + [Entry(start, 0)];
      visited := visited[start := 0];
      used := used[Entry(start, 0) := [start]];
      rest := rest - {line};
    }
    SearchStart(fg, source, target, universe, visited, queue, used);
  }

  /** One round of the outer loop: pop the head of the queue; at the target record its
      count, elsewhere take its steps. */
  method Round(fg: FriGraph, ghost source: StationId, target: StationId, ghost universe: set<State>,
               visited: map<State, nat>, queue: seq<Entry>, ghost used: History,
               best: Option<nat>, ghost bestWalk: seq<State>)
    returns (visited': map<State, nat>, queue': seq<Entry>, ghost used': History,
             best': Option<nat>, ghost bestWalk': seq<State>)
    requires Covers(fg, universe) && queue != []
    requires Search(fg, source, target, universe, visited, queue, used, best)
    requires BestOk(fg, source, target, best, bestWalk)
    ensures Search(fg, source, target, universe, visited', queue', used', best')
    ensures BestOk(fg, source, target, best', bestWalk')
    ensures || Pairs(universe) - used'.Keys < Pairs(universe) - used.Keys
            || (used'.Keys == used.Keys && |queue'| < |queue|)
  {
    var entry := queue[0];
    if entry.state.station == target {
      PopTarget(fg, source, target, universe, visited, queue, used, best, bestWalk);
      visited', queue', used', best', bestWalk' := visited, queue[1..], used, best, bestWalk;
      if best.None? || entry.transfers < best.value {
        best', bestWalk' := Some(entry.transfers), used[entry];
      }
    } else {
      PopRelax(fg, source, target, universe, visited, queue, used, best);
      best', bestWalk' := best, bestWalk;
      visited', queue', used' := Relax(fg, source, target, universe, entry.state, entry.transfers,
                                       visited, queue[1..], used, best);
      if used.Keys < used'.Keys {
        Fewer(universe, used, used');
      } else {
        assert |queue'| < |queue|;
      }
    }
  }

  /** Every state one step from `x` whose station is not `pending` has been relaxed. */
  ghost predicate NeighborsDone(fg: FriGraph, x: State, pending: set<StationId>, done: set<State>)
  {
    forall y :: Step(fg, x, y) && y.station !in pending ==> y in done
  }

  /** Every line of the edge from `x` to `neighbor` that is not `pending` has been relaxed. */
  ghost predicate LinesDone(fg: FriGraph, x: State, neighbor: StationId, pending: set<Line>, done: set<State>)
    requires neighbor != x.station
  {
    forall l :: l in EdgeLinesOf(fg, Key(x.station, neighbor)) && l !in pending ==> State(neighbor, l) in done
  }

  lemma EdgeDone(fg: FriGraph, x: State, neighbor: StationId, neighbors: set<StationId>, done: set<State>)
    requires neighbor != x.station
    requires NeighborsDone(fg, x, neighbors, done)
    requires LinesDone(fg, x, neighbor, {}, done)
    ensures NeighborsDone(fg, x, neighbors - {neighbor}, done)
  {
  }

  lemma LinesStart(fg: FriGraph, x: State, neighbor: StationId, done: set<State>)
    requires neighbor != x.station
    ensures LinesDone(fg, x, neighbor, EdgeLinesOf(fg, Key(x.station, neighbor)), done)
  {
  }

  lemma LineDone(fg: FriGraph, x: State, neighbor: StationId, neighbors: set<StationId>, lines: set<Line>,
                 edgeLine: Line, done: set<State>)
    requires neighbor != x.station
    requires NeighborsDone(fg, x, neighbors, done)
    requires LinesDone(fg, x, neighbor, lines, done)
    ensures NeighborsDone(fg, x, neighbors, done + {State(neighbor, edgeLine)})
    ensures LinesDone(fg, x, neighbor, lines - {edgeLine}, done + {State(neighbor, edgeLine)})
  {
  }

  /** The loop over the neighbours of the popped station. */
  method Relax(fg: FriGraph, ghost source: StationId, ghost target: StationId, ghost universe: set<State>,
               x: State, t: nat, visited0: map<State, nat>, queue0: seq<Entry>, ghost used0: History,
               ghost best: Option<nat>)
    returns (visited: map<State, nat>, queue: seq<Entry>, ghost used: History)
    requires Covers(fg, universe)
    requires Relaxing(fg, source, target, universe, x, t, visited0, queue0, used0, visited0, queue0, used0, best, {})
    ensures Search(fg, source, target, universe, visited, queue, used, best)
    ensures used0.Keys < used.Keys || (used.Keys == used0.Keys && |queue| == |queue0|)
  {
    visited, queue, used := visited0, queue0, used0;
    ghost var done: set<State> := {};
    var neighbors := Neighbors(fg.graph, x.station);
    while neighbors != {}
      invariant neighbors <= Neighbors(fg.graph, x.station)
      invariant Relaxing(fg, source, target, universe, x, t, visited0, queue0, used0, visited, queue, used, best, done)
      invariant NeighborsDone(fg, x, neighbors, done)
      decreases neighbors
    {
      var neighbor :| neighbor in neighbors;
      visited, queue, used, done := RelaxEdge(fg, source, target, universe, x, t, visited0, queue0, used0, best,
                                              neighbors, neighbor, visited, queue, used, done);
      neighbors := neighbors - {neighbor};
    }
    RelaxDone(fg, source, target, universe, x, t, visited0, queue0, used0, visited, queue, used, best, done);
  }

  /** The loop over the lines of the edge from the popped station to `neighbor`. */
  method RelaxEdge(fg: FriGraph, ghost source: StationId, ghost target: StationId, ghost universe: set<State>,
                   x: State, t: nat, ghost visited0: map<State, nat>, ghost queue0: seq<Entry>, ghost used0: History,
                   ghost best: Option<nat>, ghost neighbors: set<StationId>, neighbor: StationId,
                   visited: map<State, nat>, queue: seq<Entry>, ghost used: History, ghost done: set<State>)
    returns (visited': map<State, nat>, queue': seq<Entry>, ghost used': History, ghost done': set<State>)
    requires Covers(fg, universe)
    requires Relaxing(fg, source, target, universe, x, t, visited0, queue0, used0, visited, queue, used, best, done)
    requires NeighborsDone(fg, x, neighbors, done)
    requires neighbor in Neighbors(fg.graph, x.station)
    ensures Relaxing(fg, source, target, universe, x, t, visited0, queue0, used0, visited', queue', used', best, done')
    ensures NeighborsDone(fg, x, neighbors - {neighbor}, done')
  {
    visited', queue', used', done' := visited, queue, used, done;
    var lines := EdgeLinesOf(fg, Key(x.station, neighbor));
    LinesStart(fg, x, neighbor, done);
    while lines != {}
      invariant lines <= EdgeLinesOf(fg, Key(x.station, neighbor))
      invariant Relaxing(fg, source, target, universe, x, t, visited0, queue0, used0, visited', queue', used', best, done')
      invariant NeighborsDone(fg, x, neighbors, done')
      invariant LinesDone(fg, x, neighbor, lines, done')
      decreases lines
    {
      var edgeLine :| edgeLine in lines;
      visited', queue', used', done' := RelaxLine(fg, source, target, universe, x, t, visited0, queue0, used0, best,
                                                  neighbors, neighbor, lines, edgeLine, visited', queue', used', done');
      lines := lines - {edgeLine};
    }
    EdgeDone(fg, x, neighbor, neighbors, done');
  }

  /** One line of the edge from the popped station to `neighbor`: the state reached on it is improved or kept. */
  method RelaxLine(fg: FriGraph, ghost source: StationId, ghost target: StationId, ghost universe: set<State>,
                   x: State, t: nat, ghost visited0: map<State, nat>, ghost queue0: seq<Entry>, ghost used0: History,
                   ghost best: Option<nat>, ghost neighbors: set<StationId>, neighbor: StationId,
                   ghost lines: set<Line>, edgeLine: Line,
                   visited: map<State, nat>, queue: seq<Entry>, ghost used: History, ghost done: set<State>)
    returns (visited': map<State, nat>, queue': seq<Entry>, ghost used': History, ghost done': set<State>)
    requires Covers(fg, universe)
    requires Relaxing(fg, source, target, universe, x, t, visited0, queue0, used0, visited, queue, used, best, done)
    requires neighbor in Neighbors(fg.graph, x.station)
    requires NeighborsDone(fg, x, neighbors, done)
    requires LinesDone(fg, x, neighbor, lines, done)
    requires edgeLine in lines && edgeLine in EdgeLinesOf(fg, Key(x.station, neighbor))
    ensures Relaxing(fg, source, target, universe, x, t, visited0, queue0, used0, visited', queue', used', best, done')
    ensures NeighborsDone(fg, x, neighbors, done')
    ensures LinesDone(fg, x, neighbor, lines - {edgeLine}, done')
  {
    var newTransfers := t;
    if edgeLine != x.line {
      newTransfers := newTransfers + 1;
    }
    var stateKey := State(neighbor, edgeLine);
    assert Step(fg, x, stateKey) && newTransfers == t + Cost(x, stateKey);
    if stateKey !in visited || visited[stateKey] > newTransfers {
      RelaxImprove(fg, source, target, universe, x, t, visited0, queue0, used0, visited, queue, used, best, done,
                   stateKey, newTransfers);
      visited' := visited[stateKey := newTransfers];
      queue' := queue + [Entry(stateKey, newTransfers)];
      used' := used[Entry(stateKey, newTransfers) := used[Entry(x, t)] + [stateKey]];
    } else {
      RelaxKeep(fg, source, target, universe, x, t, visited0, queue0, used0, visited, queue, used, best, done, stateKey);
      visited', queue', used' := visited, queue, used;
    }
    LineDone(fg, x, neighbor, neighbors, lines, edgeLine, done);
    done' := done + {stateKey};
  }

  // ---------------------------------------------------------------------------
  // Reversed trips: the least number of transfers does not depend on direction

  /** A trip is a boarding at the source followed by steps. */
  lemma {:induction false} WalkSteps(fg: FriGraph, source: StationId, w: seq<State>)
    ensures IsWalk(fg, source, w) <==>
      && |w| >= 1 && w[0].station == source && w[0].line in NodeLines(fg, source)
      && forall i :: 0 < i < |w| ==> Step(fg, w[i - 1], w[i])
    decreases |w|
  {
    if |w| > 1 {
      var p := w[..|w| - 1];
      WalkSteps(fg, source, p);
      assert forall i :: 0 <= i < |p| ==> p[i] == w[i];
    }
  }

  /** The count of a trip with a state put in front. */
  lemma {:induction false} WalkCostCons(a: State, w: seq<State>)
    ensures WalkCost([a] + w) == if w == [] then 0 else Cost(a, w[0]) + WalkCost(w)
    decreases |w|
  {
    if |w| >= 2 {
      var p := w[..|w| - 1];
      WalkCostCons(a, p);
      assert ([a] + w)[..|w|] == [a] + p;
    } else if |w| == 1 {
      assert ([a] + w)[..1] == [a];
    }
  }

  /** The trip `w` ridden backwards: it boards at the last station on the last line
      and rides every edge on the line `w` rode it on. */
  function Reversed(w: seq<State>): (r: seq<State>)
    requires w != []
    ensures |r| == |w| && r[0] == w[|w| - 1]
    ensures forall j :: 0 < j < |w| ==> r[j] == State(w[|w| - 1 - j].station, w[|w| - j].line)
  {
    seq(|w|, j requires 0 <= j < |w| => if j == 0 then w[|w| - 1] else State(w[|w| - 1 - j].station, w[|w| - j].line))
  }

  /** Riding backwards saves the change of line after the first edge, if there was one. */
  lemma {:induction false} ReversedCost(w: seq<State>)
    requires |w| >= 2
    ensures WalkCost(Reversed(w)) + Cost(w[0], w[1]) == WalkCost(w)
    decreases |w|
  {
    var r := Reversed(w);
    var y := w[|w| - 1];
    var x := w[|w| - 2];
    var mid := State(x.station, y.line);
    if |w| == 2 {
      assert r == [y, mid];
      WalkCostCons(y, [mid]);
      WalkCostCons(mid, []);
    } else {
      var p := w[..|w| - 1];
      var rp := Reversed(p);
      ReversedCost(p);
      assert r == [y] + ([mid] + rp[1..]);
      WalkCostCons(y, [mid] + rp[1..]);
      WalkCostCons(mid, rp[1..]);
      assert rp == [x] + rp[1..];
      WalkCostCons(x, rp[1..]);
      assert p[0] == w[0] && p[1] == w[1];
    }
  }

  /** Each step of a reversed trip rides an edge of the trip backwards on the same line. */
  lemma ReversedStep(fg: FriGraph, u: StationId, w: seq<State>, j: nat)
    requires u in fg.graph.nodes && 0 < j < |w|
    requires w[0].station == u && forall i :: 0 < i < |w| ==> Step(fg, w[i - 1], w[i])
    ensures Step(fg, Reversed(w)[j - 1], Reversed(w)[j])
  {
    var n := |w|;
    var a := w[n - 1 - j];
    var b := w[n - j];
    assert Step(fg, a, b);
    AdjacentSymmetric(fg.graph, a.station, b.station);
    KeySymmetric(a.station, b.station);
    assert Reversed(w)[j - 1].station == b.station;
    if n - 1 - j > 0 {
      assert Step(fg, w[n - 2 - j], a);
    }
  }

  /** Every trip from `u` to `v` has a reversed trip from `v` to `u` with no more
      transfers, when every line of an edge serves both of its stations. */
  lemma ReverseTrip(fg: FriGraph, u: StationId, w: seq<State>)
    requires LinesAtEnds(fg) && u in fg.graph.nodes && IsWalk(fg, u, w)
    ensures IsWalk(fg, w[|w| - 1].station, Reversed(w))
    ensures Reversed(w)[|w| - 1].station == u
    ensures WalkCost(Reversed(w)) <= WalkCost(w)
  {
    var r := Reversed(w);
    var n := |w|;
    WalkSteps(fg, u, w);
    forall j | 0 < j < n
      ensures Step(fg, r[j - 1], r[j])
    {
      ReversedStep(fg, u, w, j);
    }
    if n >= 2 {
      assert Step(fg, w[n - 2], w[n - 1]);
      ReversedCost(w);
    }
    WalkSteps(fg, w[n - 1].station, r);
  }

  /** Some trip leads back from `target` to `source` with no more transfers. */
  lemma ReachesBack(fg: FriGraph, source: StationId, target: StationId, c: nat) returns (c': nat)
    requires LinesAtEnds(fg) && source in fg.graph.nodes && Reaches(fg, source, target, c)
    ensures c' <= c && Reaches(fg, target, source, c')
  {
    var w: seq<State> :| IsWalk(fg, source, w) && w[|w| - 1].station == target && WalkCost(w) == c;
    ReverseTrip(fg, source, w);
    c' := WalkCost(Reversed(w));
  }

  /** The least number of transfers from `u` to `v` is the one from `v` to `u`. */
  lemma MinTransfersSymmetric(fg: FriGraph, u: StationId, v: StationId, numLines: nat, r: nat)
    requires LinesAtEnds(fg) && u in fg.graph.nodes && v in fg.graph.nodes
    requires IsMinTransfers(fg, u, v, numLines, r)
    ensures IsMinTransfers(fg, v, u, numLines, r)
  {
    if exists c :: Reaches(fg, u, v, c) {
      var back := ReachesBack(fg, u, v, r);
      forall c | Reaches(fg, v, u, c)
        ensures r <= c
      {
        var there := ReachesBack(fg, v, u, c);
      }
    } else if exists c :: Reaches(fg, v, u, c) {
      var c :| Reaches(fg, v, u, c);
      var there := ReachesBack(fg, v, u, c);
      assert false;
    }
  }
}
