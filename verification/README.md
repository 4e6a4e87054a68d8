# A verified model of the Singapore 2009 transit analysis engine

This project models, in Dafny, the analysis core of `singapore_2009_validation.py`. That core is the engine that evaluates a metro network from its GTFS timetable. It works in these stages:

- It groups GTFS stops into stations.
- It averages the scheduled travel time between consecutive stops.
- It builds the network topology in two passes:
  - the full network, with every station;
  - the simplified network of Derrible and Kennedy, which keeps only transfer stations and terminals.
- It hands both networks to networkx as undirected graphs.
- It computes the Derrible–Kennedy indicators on the simplified graph:
  - coverage σ;
  - directness τ, from the greatest least number of line transfers δ;
  - connectivity ρ, from the transfer possibilities.
- It predicts boardings per capita (Bpc) from those indicators.
- It runs the disruption scenarios of the functional resilience index (FRI):
  - random failures at four probabilities;
  - the top-k stations by degree;
  - the top-k stations by betweenness.
  
  Each scenario records:
  - the performance ratio;
  - the isolated stations;
  - the share of station pairs still joined on the full network.
- For each of four time thresholds, it computes the reachable stations by a Dijkstra search with a cutoff.
- From those stations it computes the system level mobility efficiency (SME).

The model has one module per stage. Each module is written in the form of the source code it models:
- Loops that build dictionaries are methods with loop invariants. Each is proved against a specification function or predicate.
- Pure formulas are functions.
- The promises about them are lemmas.

| module | models |
|---|---|
| `Core` | station ids, sorted edge keys, means, `str.strip` |
| `TravelTimes` | `parse_time`, `calculate_travel_times` |
| `Stations` | `identify_unique_stations` |
| `Topology` | the first pass of `build_network_topology` (lines, edges, transfers, terminals) |
| `Simplified` | its second pass (simplified edges, isolated-terminal repair, edge counts) |
| `Graphs` | the networkx operations used: neighbours, connectivity, components, subgraphs |
| `Network` | `create_networkx_graph` |
| `Transfers` | `count_min_transfers_bfs` |
| `Indicators` | `compute_derrible_kennedy_indicators`, `predict_boardings_per_capita` |
| `Disruption` | `simulate_disruption_scenario`, top-k targets, isolated stations, reachable pairs |
| `Fri` | `compute_fri` |
| `Reachability` | `compute_reachability` (Dijkstra's search with a cutoff) |
| `Sme` | `compute_sme`, `estimate_reachable_area` |

The model follows the code of `singapore_2009_validation.py` where a reader might expect otherwise:
- Targeted attacks rank the stations once, on the baseline graph, and remove the top k together (lines 897-904 and 968-975). The ranking is not recomputed after each removal.
- The disrupted topology is not rebuilt. Only the transfer and terminal sets lose the failed stations. The station lines and both edge counters stay those of the baseline, so σ and the edge counts of a disrupted network are the baseline's.
- The indicators are computed on the whole disrupted graph, not on its largest component. Only δ is taken on the largest component, and only when the graph is disconnected.
- ρ is `max(0, (v_c^t − e_m) / v_t)`, built from the transfer possibilities Σ(l − 1). It is not the edge-count form.
- There is no size penalty: the performance ratio is `Bpc / baseline Bpc`.
- `isolated_stations` counts the stations of the components smaller than the largest component. It is not `N_baseline − |largest|`.
- The representative station for the reachable area is the first station whose count is closest to the average, not the median one. The median is only reported.

## Model

| member | source | states |
|---|---|---|
| Core.Key | singapore_2009_validation.py:254-256 | the key of two distinct stations is a sorted pair (lo < hi) whose two ends are exactly those stations |
| Core.KeySymmetric | singapore_2009_validation.py:255 | the edge key does not depend on the direction of travel |
| Core.Ascending | singapore_2009_validation.py:616 | the nodes of a graph are listed in strictly increasing id order, each node of the set exactly once |
| Core.MeanBetween | singapore_2009_validation.py:199-201 | a mean of samples that all lie strictly between two bounds lies strictly between them |
| Core.Strip | singapore_2009_validation.py:112 | `str.strip()` returns the part of the string between its leading and trailing whitespace, and the result neither begins nor ends with whitespace |
| Core.StripUnchanged | singapore_2009_validation.py:112 | a string without surrounding whitespace is left unchanged by strip |
| TravelTimes.Split | singapore_2009_validation.py:87 | `split(':')` yields at least one part, and no part contains ':' |
| TravelTimes.JoinSplit | singapore_2009_validation.py:87 | splitting on ':' loses nothing: joining the parts with ':' gives back the string |
| TravelTimes.ParseInt | singapore_2009_validation.py:88 | `int()` of a string accepts it exactly when, once stripped, it is groups of ASCII decimal digits separated by single underscores, with an optional `+` or `-` in front, and its value is theirs with that sign |
| TravelTimes.ParseIntNatToString | singapore_2009_validation.py:88 | `int(str(n)) == n` for every natural number |
| TravelTimes.ParseTimeParts | singapore_2009_validation.py:85-89 | a time whose first three ':'-parts parse as h, m, s is h·60 + m + s/60 minutes |
| TravelTimes.ParseFormatTime | singapore_2009_validation.py:85-89 | round trip: the text "h:m:s" parses back to h·60 + m + s/60 minutes |
| TravelTimes.KeptDuration | singapore_2009_validation.py:185-190 | a sample is kept exactly when the duration lies strictly between 0 and 30 minutes: arrival − departure, or arrival + 1440 − departure when the arrival reads earlier |
| TravelTimes.SegmentTime | singapore_2009_validation.py:181-196 | an unparsable departure or arrival gives no sample; otherwise the sample is the kept duration between the two parsed times, strictly between 0 and 30 minutes |
| TravelTimes.SegmentOfClockTimes | singapore_2009_validation.py:181-190 | between two well-formed clock times the sample is the kept duration of their minute counts |
| TravelTimes.MidnightCrossing | singapore_2009_validation.py:185-186 | a departure at 23:58 and an arrival at 00:01 give a three-minute sample |
| TravelTimes.LongGapDiscarded | singapore_2009_validation.py:190 | a gap of 30 minutes or more gives no sample |
| TravelTimes.RecordBothKeeps | singapore_2009_validation.py:190-194 | recording a plausible sample under both directions keeps the sample map symmetric and plausible |
| TravelTimes.SamplesUpToKeep | singapore_2009_validation.py:172-196 | after any number of trips every pair has the same samples as its reverse, at least one sample, and all in (0, 30) |
| TravelTimes.AfterPairKeys | singapore_2009_validation.py:190-194 | one pair gives (a, b) samples exactly when (a, b) already had some, or the pair joins a and b in either direction and yields a sample |
| TravelTimes.AfterPairsAddsLast | singapore_2009_validation.py:175-194 | the last pair of a prefix, when it joins a and b and yields a sample, leaves (a, b) with samples |
| TravelTimes.AfterPairsGrows | singapore_2009_validation.py:175-194 | one more pair never removes a pair's samples |
| TravelTimes.AfterPairsGrowsFrom | singapore_2009_validation.py:175-194 | a pair with samples after the first `lo` pairs of a trip still has them after any later prefix |
| TravelTimes.AfterPairsKeepsKey | singapore_2009_validation.py:175-194 | a pair that had samples before a trip still has them after any prefix of it |
| TravelTimes.AfterPairsAddsKey | singapore_2009_validation.py:175-194 | any pair among the first `n` of a trip that joins a and b and yields a sample leaves (a, b) with samples |
| TravelTimes.AfterPairsOnlyKeys | singapore_2009_validation.py:175-194 | a pair that gained samples in a trip was joined, in either direction, by one of its pairs that yielded a sample |
| TravelTimes.SamplesUpToGrows | singapore_2009_validation.py:172-196 | later trips never remove a pair's samples |
| TravelTimes.SamplesUpToAdds | singapore_2009_validation.py:172-196 | a consecutive pair of one of the first k trips that joins a and b and yields a sample leaves (a, b) with samples |
| TravelTimes.SamplesUpToOnly | singapore_2009_validation.py:172-196 | a pair with samples after the first k trips was joined, in either direction, by a consecutive pair of one of them that yielded a sample |
| TravelTimes.SamplesUpToKeys | singapore_2009_validation.py:172-196 | after the first k trips, (a, b) has samples exactly when some consecutive pair of one of those trips joins a and b, in either direction, and yields a sample |
| TravelTimes.PairOfSegment | singapore_2009_validation.py:181-196 | a pair changes the samples only when it yields a sample, and then by that sample under both directions |
| TravelTimes.SegmentOf | singapore_2009_validation.py:181-196 | the parse-and-check of one pair computes the specified sample, and None on a parse failure |
| TravelTimes.Duration | singapore_2009_validation.py:185-190 | the midnight wrap and the (0, 30) check compute the kept duration |
| TravelTimes.AddSegment | singapore_2009_validation.py:176-196 | one pass of the inner loop appends the pair's sample, if any, under (a, b) and under (b, a) |
| TravelTimes.AddTrip | singapore_2009_validation.py:175-196 | the inner loop applies every consecutive pair of the trip in order |
| TravelTimes.CollectSamples | singapore_2009_validation.py:172-196 | the loops over all trips collect exactly the specified samples |
| TravelTimes.AveragesPlausible | singapore_2009_validation.py:199-201 | every average lies strictly between 0 and 30 minutes, and a pair and its reverse have the same average |
| TravelTimes.CalculateTravelTimes | singapore_2009_validation.py:154-205 | the averaged map is symmetric, every average lies in (0, 30), a pair has an average exactly when some traversal gave a kept sample, and the average is the mean of its samples |
| Stations.FirstIndex | singapore_2009_validation.py:112 | `str.index('(')` is the first position of '(', and None exactly when there is none |
| Stations.CleanName | singapore_2009_validation.py:110-113 | a cleaned name contains no '(', and a name without '(' is kept as it is |
| Stations.KeysOf | singapore_2009_validation.py:104-120 | the grouping keys are distinct, cover the key of every stop, and each comes from some stop |
| Stations.MembersExactly | singapore_2009_validation.py:115-120 | a stop is in a key's group exactly when it is one of the stops and has that key, so the groups partition the stops |
| Stations.KeyHasMembers | singapore_2009_validation.py:115-120 | every key that is seen has a non-empty group |
| Stations.MembersSeen | singapore_2009_validation.py:115-120 | a key with a non-empty group is among the keys seen |
| Stations.GroupsStep | singapore_2009_validation.py:104-120 | one more stop adds its key when it is new and appends the stop to its own key's group only |
| Stations.GroupStop | singapore_2009_validation.py:104-120 | one pass of the first loop keeps the keys in first-seen order and every group equal to its members so far |
| Stations.GroupStations | singapore_2009_validation.py:102-120 | station_groups maps exactly the first-seen keys to their non-empty groups of stops |
| Stations.Shortest | singapore_2009_validation.py:133 | `min(names, key=len)` picks a shortest name, the first of them |
| Stations.NamedByKey | singapore_2009_validation.py:132-135 | a station whose stops carry no parent is named by its grouping key |
| Stations.SummaryInsideBox | singapore_2009_validation.py:128-129 | the mean coordinates of a station lie inside any box that holds all of its stops |
| Stations.AssignStop | singapore_2009_validation.py:145-146 | assigning one more stop of group i to station i keeps the partial assignment |
| Stations.AssignGroup | singapore_2009_validation.py:145-146 | after the stops of group i every id is assigned to the last group up to i that holds it |
| Stations.NumberStations | singapore_2009_validation.py:126-146 | one station row per key, numbered in key order, and every stop id assigned to the last station whose group holds it |
| Stations.IdentifyUniqueStations | singapore_2009_validation.py:92-151 | one station per distinct key in first-seen order with its group's stop ids; exactly the stop ids are mapped; each maps to the key of a stop with that id, and an id used by one stop maps to that stop's own key |
| Stations.AssignedIds | singapore_2009_validation.py:145-146 | exactly the ids of the stops are assigned |
| Stations.AssignedKeys | singapore_2009_validation.py:145-146 | every assigned id goes to the key of a stop with that id; an id held by one stop goes to that stop's key |
| Stations.LastHolderKey | singapore_2009_validation.py:145-146 | the station an id is assigned to is the station of the key of a stop with that id |
| Topology.Visits | singapore_2009_validation.py:247-249 | there are no more visits than stops |
| Topology.VisitsMembers | singapore_2009_validation.py:247-249 | every visit is a stop of the trip that maps to a station, with that station, and every stop of the trip that maps to a station gives a visit |
| Topology.VisitsAppend | singapore_2009_validation.py:247-249 | the visits keep the stops' order: those of two stretches of a trip are the first's followed by the second's |
| Topology.VisitsOne | singapore_2009_validation.py:247-249 | a single stop gives its visit when it maps to a station, and nothing otherwise |
| Topology.Lookup | singapore_2009_validation.py:259-265 | a segment has a time exactly when either direction has an average, and it is the (a, b) average when present, else the (b, a) one |
| Topology.AddEdgeEffect | singapore_2009_validation.py:254-265 | adding a segment changes only its own edge: it gains the line, and it gets a time only if it had none |
| Topology.EdgeFoldEffect | singapore_2009_validation.py:245-268 | after a trip an edge exists exactly when it existed or the trip runs along it; it gains the line exactly then; it has a time exactly when it had one or a run along it has a known time; a time once set is kept |
| Topology.EdgeFoldTimes | singapore_2009_validation.py:258-265 | a trip stores only travel times strictly between 0 and 30 minutes |
| Topology.FullRuns | singapore_2009_validation.py:242-248 | there is one run of mapped stops per trip |
| Topology.RecordEdge | singapore_2009_validation.py:253-265 | the segment's edge gains the line and, if it has no time yet, the first known direction's time |
| Topology.WalkTrip | singapore_2009_validation.py:242-268 | one trip serves its line at every mapped station and adds the edge of every consecutive pair of distinct stations |
| Topology.WalkStop | singapore_2009_validation.py:247-268 | one stop of a trip keeps the walked-prefix invariant |
| Topology.BuildEdges | singapore_2009_validation.py:235-268 | the first loop computes line_stations, station_lines and the edges of all trips |
| Topology.EdgesPresent | singapore_2009_validation.py:254-256 | an edge is present exactly when some trip runs along it, and its key is a sorted pair of distinct stations |
| Topology.EdgeLines | singapore_2009_validation.py:256 | the lines of an edge are exactly the lines of the trips that run along it |
| Topology.EdgeTimed | singapore_2009_validation.py:258-265 | an edge has a travel time exactly when some trip runs along it between stops with a known time |
| Topology.EdgeTimesPlausible | singapore_2009_validation.py:258-265 | every travel time on an edge lies strictly between 0 and 30 minutes |
| Topology.EdgesValid | singapore_2009_validation.py:255 | every edge key is a sorted pair of distinct stations |
| Topology.ServeFoldEffect | singapore_2009_validation.py:249-251 | a trip adds exactly its own line to exactly its mapped stations, in both maps |
| Topology.ServeEffect | singapore_2009_validation.py:250-251 | serving one station adds that station to the line and that line to the station, and nothing else |
| Topology.VisitsAtSplit | singapore_2009_validation.py:247-249 | a trip stops at a station exactly when its earlier stops do or its last stop does |
| Topology.ServedExactly | singapore_2009_validation.py:249-251 | line_stations and station_lines hold the same relation: a line serves a station exactly when one of its trips stops there |
| Topology.TwoLines | singapore_2009_validation.py:272 | a station is a transfer station exactly when two different lines serve it |
| Topology.TransferExactly | singapore_2009_validation.py:272 | a station is a transfer station exactly when trips of two different lines stop there |
| Topology.DegreeStep | singapore_2009_validation.py:280-282 | counting one more edge adds one at each of its two ends and nowhere else |
| Topology.DegreesOnLine | singapore_2009_validation.py:278-282 | station_degree_on_line has an entry exactly for the stations at one of the line's edges, and it is their number |
| Topology.TerminalStations | singapore_2009_validation.py:275-287 | a station is a terminal exactly when it is an end of exactly one edge of some line |
| Simplified.SpecialRun | singapore_2009_validation.py:308-315 | special_stops_in_order holds only visits of the trip at special stations, and no two consecutive ones at the same station |
| Simplified.SpecialRunKeeps | singapore_2009_validation.py:310-315 | every special station the trip visits appears in its special run |
| Simplified.SpecialStops | singapore_2009_validation.py:308-315 | the filtering loop computes the special run of the trip |
| Simplified.JoinSpecialStops | singapore_2009_validation.py:318-330 | consecutive special stops add their edge with the line and, if it has none, the (current, next) else (next, current) time |
| Simplified.SimplifyTrip | singapore_2009_validation.py:304-330 | one trip of the second pass adds the edges of its special run |
| Simplified.BuildSimplified | singapore_2009_validation.py:299-330 | dk_edges before the repair are the edges of the special runs of all trips |
| Simplified.RunStationServed | singapore_2009_validation.py:310-312 | a station of a trip's special run is special and is served by the trip's line in the first pass |
| Simplified.SimplifiedEnds | singapore_2009_validation.py:318-323 | both ends of a simplified edge are distinct special stations |
| Simplified.SimplifiedLines | singapore_2009_validation.py:322-323 | every line of a simplified edge serves both of its ends |
| Simplified.Ends | singapore_2009_validation.py:339-341 | the stations at an end of some edge are exactly the ends of the edges |
| Simplified.VertexEdgesOf | singapore_2009_validation.py:337-341 | vertex_edges has an entry exactly for the stations at an end of some edge, holding exactly the edges at that station |
| Simplified.EnterEdgeValue | singapore_2009_validation.py:339-341 | entering one edge adds it to the entries of its two ends and to no other entry |
| Simplified.EnterEdgeAt | singapore_2009_validation.py:338-341 | the entry of a station after one more edge is the entry before it with that edge added when it is at the station |
| Simplified.VertexEdgesStep | singapore_2009_validation.py:338-341 | entering one more edge into vertex_edges gives vertex_edges of the edges so far plus that edge |
| Simplified.VertexEdges | singapore_2009_validation.py:337-341 | the loop computes vertex_edges of all the edges of dk_edges; a station has a non-empty entry exactly when it is an end of some edge |
| Simplified.Isolated | singapore_2009_validation.py:344 | isolated_vertices are exactly the special stations without an edge |
| Simplified.IsolatedDistinct | singapore_2009_validation.py:344 | when the special stations are listed once each, so are the isolated ones |
| Simplified.ConnectedOn | singapore_2009_validation.py:356-361 | connected_vertices are exactly the special stations on the line that have an edge |
| Simplified.AttachableLine | singapore_2009_validation.py:354-363 | an isolated station that shares a line with a connected special station finds such a line among its own |
| Simplified.AddRepairEdge | singapore_2009_validation.py:366-371 | adding an edge from an isolated to a connected special station on a shared line, with that line and no time, keeps the repair invariant |
| Simplified.RepairKey | singapore_2009_validation.py:366-368 | the repair edge on a line is a valid edge joining the isolated station to the first connected special station on that line, which has edges |
| Simplified.AttachFromAdds | singapore_2009_validation.py:354-371 | the line loop of one isolated station only adds valid edges from it to a connected special station |
| Simplified.FirstConnected | singapore_2009_validation.py:354-364 | the first line, from a given one on, with a connected special station: every earlier line has none, and with no result no later line has one |
| Simplified.AttachFresh | singapore_2009_validation.py:354-372 | while the isolated station has no edge, the line loop adds exactly the edge to the first connected special station on the first line that has one, with that line and no time, and adds nothing when no line has one |
| Simplified.AttachFromRepaired | singapore_2009_validation.py:354-372 | the line loop of one isolated station only adds repair edges and keeps every existing edge, and the station ends with an edge unless it had one or no remaining line has a connected special station |
| Simplified.Attach | singapore_2009_validation.py:349-373 | the line loop for one isolated station: its result is the first-line-with-an-absent-edge rule applied to its lines in order, stopping at the first edge added; existing edges are kept, only repair edges are added, and the station gets an edge when it can |
| Simplified.RepairUntouched | singapore_2009_validation.py:349-371 | with isolated stations listed once each, no edge the repair adds for earlier stations is at a later isolated station |
| Simplified.RepairStep | singapore_2009_validation.py:349-372 | with the special stations listed once each, each isolated station in turn adds exactly the edge to the first connected special station on its first line that has one, or nothing when none does |
| Simplified.SettledStep | singapore_2009_validation.py:349-373 | stations already attached stay attached as later stations add edges |
| Simplified.RepairOne | singapore_2009_validation.py:349-373 | one turn of the repair loop moves the repaired edges to those after the next isolated station, keeps them repair edges and settles that station too |
| Simplified.AllSettled | singapore_2009_validation.py:344-373 | once every isolated station has been handled, every isolated special station that shares a line with a connected special station has an edge |
| Simplified.RepairIsolated | singapore_2009_validation.py:349-373 | the repaired dk_edges are the inner loop run for each isolated station in order against the vertex_edges before the repair; existing edges are never changed; each added edge joins an isolated special station to a connected one on a shared line; every isolated special station that can be attached ends up with an edge |
| Simplified.MultiStep | singapore_2009_validation.py:382-390 | counting one more edge adds it to the multiple-use set exactly when it has more than one line |
| Simplified.MultiCountStep | singapore_2009_validation.py:382-390 | counting one more edge raises the edge count by one and the multiple-use count by one exactly when it has more than one line |
| Simplified.CountEdges | singapore_2009_validation.py:379-390 | single_use_count is the number of simplified edges, multiple_use_count the number with more than one line, and never more |
| Simplified.RepairedShape | singapore_2009_validation.py:318-373 | after the repair every simplified edge joins two distinct special stations and each of its lines serves both |
| Simplified.BuildNetworkTopology | singapore_2009_validation.py:212-439 | the topology holds the served relation and full edges of all trips, the transfer and terminal stations, and the simplified network between them as the repair of the special runs' edges in the given iteration order, with its shape, its edge counts and the number of lines |
| Graphs.AdjacentSymmetric | singapore_2009_validation.py:462 | the graphs are undirected: adjacency is symmetric |
| Graphs.Neighbors | singapore_2009_validation.py:597 | `G.neighbors(u)` is exactly the set of nodes adjacent to u; it never holds u itself |
| Graphs.NeighborsSymmetric | singapore_2009_validation.py:597 | in an undirected simple graph v is a neighbour of u exactly when u is a neighbour of v |
| Graphs.KeysToSize | singapore_2009_validation.py:902 | the edges from a station to distinct other stations are as many as those stations |
| Graphs.DegreeIncident | singapore_2009_validation.py:902 | `G.degree(u)` in a simple graph is the number of edges at u |
| Graphs.ConnectedSymmetric | singapore_2009_validation.py:614 | connectivity is symmetric |
| Graphs.ConnectedTrans | singapore_2009_validation.py:614 | connectivity is transitive |
| Graphs.ClosedKeepsPath | singapore_2009_validation.py:614 | a walk that starts in a set with no leaving edge stays in it |
| Graphs.ComponentFrom | singapore_2009_validation.py:658 | the search from a node finds exactly the nodes connected to it |
| Graphs.NewComponent | singapore_2009_validation.py:658 | the component of the least unseen node is new, disjoint from the found ones, and has that node as its least |
| Graphs.AddComponent | singapore_2009_validation.py:658 | appending a new component keeps the components pairwise disjoint, covering and ordered |
| Graphs.Components | singapore_2009_validation.py:658 | `nx.connected_components`: components that are pairwise disjoint and cover the nodes, in increasing order of their least nodes |
| Graphs.IsConnected | singapore_2009_validation.py:614 | `nx.is_connected` on a non-empty graph holds exactly when every two nodes are joined by a walk |
| Graphs.OneComponent | singapore_2009_validation.py:614-658 | a graph is connected exactly when it has one component |
| Graphs.SizesOfDisjoint | singapore_2009_validation.py:842 | the sizes of disjoint sets add up to the size of their union |
| Graphs.ComponentSizes | singapore_2009_validation.py:842 | the component sizes add up to the number of nodes |
| Graphs.Largest | singapore_2009_validation.py:670 | `max(components, key=len)` is the first component of the greatest size |
| Graphs.SubgraphAdjacent | singapore_2009_validation.py:671 | in a subgraph two nodes are adjacent exactly when both are kept and adjacent in the graph |
| Graphs.SubgraphWellFormed | singapore_2009_validation.py:671 | a subgraph of a simple graph is a simple graph |
| Graphs.RemoveNodes | singapore_2009_validation.py:780 | removing nodes leaves exactly the other nodes |
| Graphs.RemovedEdges | singapore_2009_validation.py:780 | removing nodes keeps exactly the edges that touch no removed node |
| Network.SpecialRows | singapore_2009_validation.py:468-476 | the stations given attributes are exactly the special stations of the station table; they are all of the special stations when every special station is in the table |
| Network.FriGraphShape | singapore_2009_validation.py:464-491 | the indicator graph has exactly the special stations as nodes with the transfer and terminal flags, is a simple graph, and every edge line serves both ends |
| Network.FullGraphOf | singapore_2009_validation.py:492-521 | the full graph exists exactly when every edge has a travel time; it holds every station and exactly the full edges, each weighted by its time |
| Network.FullGraphShape | singapore_2009_validation.py:492-521 | the full graph is a simple graph whose every edge takes between 0 and 30 minutes |
| Transfers.ExtendWalk | singapore_2009_validation.py:600-610 | extending a trip by a step adds one transfer exactly when the line changes |
| Transfers.Board | singapore_2009_validation.py:580-584 | every line of the source is queued with no transfers, and the search invariant holds |
| Transfers.PopTarget | singapore_2009_validation.py:592-594 | popping an entry at the target records its count when it improves the best, with a trip that achieves it |
| Transfers.RelaxImprove | singapore_2009_validation.py:606-610 | an improved count is recorded and the state queued again, witnessed by the trip through the popped state |
| Transfers.RelaxKeep | singapore_2009_validation.py:606-608 | a count that does not improve changes nothing |
| Transfers.RelaxLine | singapore_2009_validation.py:600-610 | one line of an edge from the popped station is taken and the relaxation invariant kept |
| Transfers.RelaxEdge | singapore_2009_validation.py:597-610 | all lines of the edge to one neighbour are taken |
| Transfers.Relax | singapore_2009_validation.py:597-610 | all steps out of the popped state are taken and the search invariant holds again |
| Transfers.Round | singapore_2009_validation.py:588-610 | one round keeps the search invariant and consumes a queued entry or a new entry of a finite set |
| Transfers.CountsAreLeast | singapore_2009_validation.py:606-610 | once the queue is empty, every trip that meets the target only at its end ends in a state whose count is at most its transfers |
| Transfers.BestAtMost | singapore_2009_validation.py:592-593 | once the queue is empty, no trip reaches the target with fewer transfers than the best found |
| Transfers.SearchDone | singapore_2009_validation.py:588-612 | once the queue is empty, the result is the least number of transfers, or n_L when no trip reaches the target |
| Transfers.MinTransfers | singapore_2009_validation.py:572-612 | `count_min_transfers_bfs` returns the least number of transfers of a trip from source to target, or n_L when no trip gets there |
| Transfers.WalkSteps | singapore_2009_validation.py:580-610 | a trip is a boarding on a source line followed by steps along edges on their lines |
| Transfers.ReversedCost | singapore_2009_validation.py:601-604 | riding a trip backwards saves the line change after its first edge, if there was one |
| Transfers.ReverseTrip | singapore_2009_validation.py:633-635 | every trip from u has a reversed trip back to u with no more transfers, when edge lines serve both ends |
| Transfers.ReachesBack | singapore_2009_validation.py:633-635 | a trip from source to target gives a trip back with no more transfers |
| Transfers.MinTransfersSymmetric | singapore_2009_validation.py:633-635 | the least number of transfers from u to v equals that from v to u, so taking only pairs i < j loses nothing |
| Indicators.Relevant | singapore_2009_validation.py:616 | relevant_nodes are exactly the nodes of the graph flagged transfer or terminal |
| Indicators.MinTransfersUnique | singapore_2009_validation.py:572-612 | the transfer count of a pair is unique |
| Indicators.TakePair | singapore_2009_validation.py:633-638 | taking one more pair into the maximum keeps every pair so far at or below it |
| Indicators.MaxTransfers | singapore_2009_validation.py:628-653 | δ bounds the transfers of every pair taken, is attained by some pair, and is 0 below two nodes |
| Indicators.DeltaOfOrder | singapore_2009_validation.py:628-653 | the loop over the nodes in increasing order computes δ over the set |
| Indicators.Delta | singapore_2009_validation.py:628-653 | δ is the greatest least number of transfers between two relevant nodes, 0 below two |
| Indicators.DeltaAllPairs | singapore_2009_validation.py:628-651 | δ bounds the transfers between any two distinct relevant nodes in either direction |
| Indicators.MainGraph | singapore_2009_validation.py:654-671 | δ is computed on the whole graph when connected, else on its first largest component |
| Indicators.SubFriLines | singapore_2009_validation.py:671 | a component keeps the lines of its edges at both ends |
| Indicators.Sigma | singapore_2009_validation.py:559-565 | σ is never negative, and it is positive exactly when there are stations |
| Indicators.SigmaAdds | singapore_2009_validation.py:565 | σ is additive and monotone in the number of stations |
| Indicators.Tau | singapore_2009_validation.py:689 | τ·δ = n_L when δ > 0, τ = 1 when δ = 0, and τ is never negative |
| Indicators.Rho | singapore_2009_validation.py:711-716 | ρ is never negative; it is positive exactly when there are transfer stations and more possibilities than multiple-use edges, and then ρ·v_t = v_c^t − e_m |
| Indicators.BpcPositive | singapore_2009_validation.py:734-739 | with non-negative indicators the predicted boardings are at least the intercept 102.947 |
| Indicators.BpcMonotone | singapore_2009_validation.py:734-739 | the predicted boardings rise with each indicator |
| Indicators.PossibilitiesRemove | singapore_2009_validation.py:700-708 | the sum of transfer possibilities does not depend on the order of the nodes |
| Indicators.TransferPossibilities | singapore_2009_validation.py:700-708 | the loop sums l − 1 over the transfer nodes |
| Indicators.PossibilitiesAtLeast | singapore_2009_validation.py:700-708 | each transfer node with two or more lines offers at least one transfer possibility |
| Indicators.VertexCount | singapore_2009_validation.py:543-552 | counting a station that is both transfer and terminal once, as a transfer, gives v = the number of special stations |
| Indicators.ComputeIndicators | singapore_2009_validation.py:530-731 | the counts, σ, δ on the main graph, τ and ρ as specified, or None exactly for a graph without nodes |
| Disruption.DisruptShape | singapore_2009_validation.py:777-780 | the disrupted graph holds exactly the survivors and the edges touching no failed station, keeps their flags and lines, and stays simple |
| Disruption.DisruptTopology | singapore_2009_validation.py:786-788 | only the transfer and terminal sets lose the failed stations; every other field is the baseline's |
| Disruption.Best | singapore_2009_validation.py:903 | the next station of the stable descending sort is ahead of every station not taken yet |
| Disruption.TopK | singapore_2009_validation.py:902-904 | the targets are the first k stations of the stable descending sort of the baseline scores |
| Disruption.TopKDominates | singapore_2009_validation.py:902-904 | every removed station scores at least as high as every survivor |
| Disruption.TopKUnique | singapore_2009_validation.py:902-904 | the targets are determined by the scores |
| Disruption.DegreeScores | singapore_2009_validation.py:902 | the scores have an entry exactly for the stations of the baseline graph, each being its degree there |
| Disruption.DegreeScoreIncident | singapore_2009_validation.py:902 | a station's degree score is the number of edges at it |
| Disruption.ComponentOfMember | singapore_2009_validation.py:840 | the component found for a station is the set of stations connected to it |
| Disruption.NoneStranded | singapore_2009_validation.py:839-844 | in a connected graph no station is stranded |
| Disruption.StrandedByComponents | singapore_2009_validation.py:839-842 | the stranded stations are those of the components smaller than the largest |
| Disruption.StrandedIsSmall | singapore_2009_validation.py:839-842 | a station whose component is smaller than another lies in a component smaller than the largest |
| Disruption.SmallIsStranded | singapore_2009_validation.py:839-842 | a station of a component smaller than the largest has a component smaller than another |
| Disruption.SmallSizesDisjoint | singapore_2009_validation.py:842 | over disjoint components the summed sizes of the small ones are the size of their union |
| Disruption.SmallBesideLargest | singapore_2009_validation.py:841-842 | the stations of the smaller components lie outside the largest one |
| Disruption.StrandedBelow | singapore_2009_validation.py:839-844 | the stranded stations and a largest component together are at most the whole graph |
| Disruption.SumSmall | singapore_2009_validation.py:842 | the sum of the sizes of the components smaller than the largest |
| Disruption.SmallSizesStranded | singapore_2009_validation.py:842 | that sum is the number of stranded stations |
| Disruption.IsolatedCount | singapore_2009_validation.py:839-844 | isolated_count is the number of stranded stations, and always fewer than the stations left |
| Disruption.Pairs | singapore_2009_validation.py:857 | n(n−1)/2 is the number of unordered pairs: twice it is n(n−1) |
| Disruption.PairsAdd | singapore_2009_validation.py:857 | the pairs of two groups together are their own pairs plus the product of their sizes |
| Disruption.PairsSuperadditive | singapore_2009_validation.py:857 | two groups together have at least the pairs of each group apart |
| Disruption.PairsMonotone | singapore_2009_validation.py:857 | more stations have at least as many pairs |
| Disruption.PairSumBound | singapore_2009_validation.py:859-865 | splitting stations into components can only lose pairs |
| Disruption.ConnectedPairSum | singapore_2009_validation.py:854-865 | for a connected graph the component sum equals n(n−1)/2 |
| Disruption.ReachablePairsBound | singapore_2009_validation.py:851-865 | the reachable pairs are at most all pairs of the survivors, and exactly all when they are connected |
| Disruption.ReachablePairs | singapore_2009_validation.py:851-865 | 0 below two stations, n(n−1)/2 when connected, else the pairs inside the components |
| Disruption.SumPairs | singapore_2009_validation.py:860-865 | the loop adds n(n−1)/2 for every component |
| Disruption.ReachablePct | singapore_2009_validation.py:867-869 | the percentage times 14365 is 100 times the reachable pairs |
| Disruption.ReachablePctBound | singapore_2009_validation.py:867-869 | for at most 170 stations the percentage lies between 0 and 100 |
| Fri.Ratio | singapore_2009_validation.py:836 | with a positive baseline ratio·baseline = bpc, with the same sign; otherwise 0 |
| Fri.Evaluate | singapore_2009_validation.py:827-873 | the outcome of one failed set: zeros and the given isolated count when nothing survives, else the ratio from the disrupted indicators, the stranded count and the reachable percentage of the full network |
| Fri.IndicatorsBpc | singapore_2009_validation.py:734-739 | the indicators never push the predicted boardings below the intercept |
| Fri.RatioSign | singapore_2009_validation.py:836-873 | with a positive baseline the ratio is never negative, and it is positive exactly when some station survives |
| Fri.PctRange | singapore_2009_validation.py:867-873 | for a network of at most 170 stations the percentage lies between 0 and 100 |
| Fri.NumFail | singapore_2009_validation.py:821 | `int(n·p)` is the whole part of n·p/100 |
| Fri.RandomPlanSize | singapore_2009_validation.py:818-823 | when every probability fails someone there are ten random scenarios per probability (`Fri.Runs` numbers the runs of one probability 0, 1, … in order) |
| Fri.TargetPlanSize | singapore_2009_validation.py:897-899 | when every count is below the number of stations there is one targeted scenario per count |
| Fri.TargetPlanStep | singapore_2009_validation.py:897-899 | one more count adds its targeted scenario exactly when it is below the number of stations |
| Fri.RandomPlanEmpty | singapore_2009_validation.py:818-823 | there are no random scenarios exactly when no probability fails a station |
| Fri.TargetPlanEmpty | singapore_2009_validation.py:897-899 | a ranking gives no targeted scenario exactly when every count reaches the number of stations |
| Fri.PlanEmpty | singapore_2009_validation.py:818-1034 | compute_fri runs no scenario exactly when the baseline has at most one station |
| Fri.PlanSize | singapore_2009_validation.py:818-1034 | from 20 stations on, compute_fri runs 56 scenarios on a connected baseline and 48 otherwise |
| Fri.AppendValid | singapore_2009_validation.py:875-883 | appending a correctly chosen and evaluated scenario keeps every scenario valid |
| Fri.RandomScenario | singapore_2009_validation.py:825-883 | a random scenario fails the sample drawn for its run and records its evaluated outcome |
| Fri.RandomRuns | singapore_2009_validation.py:819-883 | the runs of one probability are appended in order, none when it fails no station |
| Fri.RandomScenarios | singapore_2009_validation.py:818-893 | the random scenarios follow the random plan, each valid |
| Fri.TargetScenario | singapore_2009_validation.py:901-953 | a targeted scenario fails the top k of its ranking and records its evaluated outcome |
| Fri.AddTargetScenario | singapore_2009_validation.py:897-953 | one count of the targeted loop appends one valid scenario of that kind when the count is below the number of stations, and nothing otherwise |
| Fri.TargetScenarios | singapore_2009_validation.py:897-963 | the targeted scenarios of one ranking follow its plan, each valid |
| Fri.ComputeFri | singapore_2009_validation.py:803-1052 | the scenarios follow the plan, each chosen and evaluated as specified, and the index is the mean of their ratios, overall and per kind; there is no index (the source raises KeyError at line 1040) exactly on a one-station baseline |
| Fri.OfCategory | singapore_2009_validation.py:1043 | a kind's scenarios are all of that kind and no more than all the scenarios |
| Fri.OfCategoryMembers | singapore_2009_validation.py:1043 | a scenario is among a kind's scenarios exactly when it is one of the scenarios and of that kind |
| Fri.OfCategoryConcat | singapore_2009_validation.py:1043 | selecting a kind keeps the scenarios' order: the selection of two runs of scenarios is the first's followed by the second's |
| Fri.OfCategoryAppend | singapore_2009_validation.py:1043 | a new scenario adds its ratio to its own kind's sum and count only |
| Fri.CategoriesSplit | singapore_2009_validation.py:1040-1043 | the overall sum and count are those of the three kinds added, so the overall index weights kinds by their counts |
| Fri.RatiosNonNegative | singapore_2009_validation.py:836 | with a positive baseline every recorded ratio is non-negative |
| Fri.MeanRatio | singapore_2009_validation.py:1043 | a kind without scenarios has no entry in fri_by_type; otherwise the entry times its number of scenarios is the sum of their ratios |
| Fri.FriOf | singapore_2009_validation.py:1037-1043 | there is an index exactly when there is some scenario; with none, the `performance_ratio` lookup on the empty DataFrame raises |
| Fri.KindEntry | singapore_2009_validation.py:1043 | a kind has an entry in fri_by_type exactly when some scenario is of that kind |
| Fri.FriNonNegative | singapore_2009_validation.py:1040 | with a positive baseline and some scenario the overall index exists and is non-negative |
| Reachability.EdgeTimePositive | singapore_2009_validation.py:518-519 | every edge of the full graph takes positive time |
| Reachability.RouteExtend | singapore_2009_validation.py:1068-1070 | a walk extended by an adjacent station is a walk, longer by the edge's time |
| Reachability.TravelTimeNonNegative | singapore_2009_validation.py:1068-1070 | no walk takes negative time |
| Reachability.Closest | singapore_2009_validation.py:1068-1070 | the station popped next has the least tentative time among the unsettled |
| Reachability.SettleOptimal | singapore_2009_validation.py:1068-1070 | a popped station's time is the least of any walk to it |
| Reachability.RelaxEdge | singapore_2009_validation.py:1068-1070 | relaxing an edge only lowers times, changes only the neighbour, respects the cutoff, and witnesses every time by a walk |
| Reachability.RelaxNeighbors | singapore_2009_validation.py:1068-1070 | relaxing every neighbour of a settled station keeps the search invariant |
| Reachability.Settle | singapore_2009_validation.py:1068-1070 | one round settles a new station and keeps the invariant |
| Reachability.SearchDone | singapore_2009_validation.py:1068-1070 | at the end the stations seen are exactly those within the cutoff, each with its least travel time |
| Reachability.ShortestTimes | singapore_2009_validation.py:1068-1070 | `single_source_dijkstra_path_length` with a cutoff: exactly the stations some walk reaches within the cutoff, each with its least travel time |
| Reachability.SearchReaches | singapore_2009_validation.py:1071 | the keys of the lengths are the reachable set |
| Reachability.ComputeReachability | singapore_2009_validation.py:1059-1073 | every station maps to exactly the stations reachable from it within the threshold |
| Reachability.ReachesItself | singapore_2009_validation.py:1068-1071 | a station always reaches itself |
| Reachability.ReachSize | singapore_2009_validation.py:1071 | a station reaches between one and all stations |
| Reachability.ReachMonotone | singapore_2009_validation.py:1068-1071 | a longer threshold reaches at least the same stations |
| Reachability.EdgeTimeSymmetric | singapore_2009_validation.py:518-519 | an edge takes the same time in both directions |
| Reachability.TravelTimeReverse | singapore_2009_validation.py:1068-1070 | a walk backwards takes the same time |
| Reachability.ReachSymmetric | singapore_2009_validation.py:1068-1071 | v is reachable from s within a threshold exactly when s is reachable from v |
| Sme.CountReachable | singapore_2009_validation.py:1140-1147 | the loop collects, for each station in node order, the number of stations reachable from it (none for a station without an entry), and their total |
| Sme.AvgReachable | singapore_2009_validation.py:1157 | average × n = total with stations, and 0 without |
| Sme.ReachabilityPct | singapore_2009_validation.py:1158 | percentage × n² = 100 × total with stations, and 0 without |
| Sme.Sorted | singapore_2009_validation.py:1162 | `sorted` gives an ascending permutation of the counts |
| Sme.Median | singapore_2009_validation.py:1162 | the median is one of the counts, or 0 without counts |
| Sme.MedianRank | singapore_2009_validation.py:1162 | at most n/2 counts are below the median and more than n/2 are at most it |
| Sme.Gap | singapore_2009_validation.py:1169 | the distance of a count from the average is never negative |
| Sme.Representative | singapore_2009_validation.py:1168-1169 | the representative station is the first of those whose count is closest to the average |
| Sme.EstimateArea | singapore_2009_validation.py:1076-1112 | fewer than three stations give area 0; a non-negative hull area and cosine give a non-negative area |
| Sme.Efficiency | singapore_2009_validation.py:1178 | SME × (track length / population × 1000) = area |
| Sme.AreaOf | singapore_2009_validation.py:1166-1174 | with the hull and an average above two stations, the area is the estimated area of what the representative station (the first whose count is closest to the average) reaches; otherwise two square kilometres per station on average |
| Sme.RowOf | singapore_2009_validation.py:1157-1194 | the row carries its threshold, the average, share and median of the stations' reachable counts, the representative station's estimated area when the hull is used and the fallback area otherwise, and SME from its area |
| Sme.SmeRowAt | singapore_2009_validation.py:1133-1194 | one pass of the threshold loop computes the specified row |
| Sme.ComputeSme | singapore_2009_validation.py:1115-1196 | one row per threshold, in order, each as specified |
| Sme.ListingSize | singapore_2009_validation.py:1144 | the node listing has as many entries as there are stations |
| Sme.CountsBetween | singapore_2009_validation.py:1144-1146 | every station reaches between one and all stations |
| Sme.StatsBetween | singapore_2009_validation.py:1157-1162 | with counts between 1 and n, the average lies in [1, n], the share in (0, 100] and the median in [1, n] |
| Sme.RowBounds | singapore_2009_validation.py:1157-1162 | on a network with stations the average, the share and the median of every row are in range |
| Sme.StatsGrow | singapore_2009_validation.py:1157-1158 | pointwise larger counts give a larger average and share |
| Sme.RowsGrow | singapore_2009_validation.py:1133-1158 | a longer threshold gives at least the same average and share |
| Sme.ThresholdsGrow | singapore_2009_validation.py:1133-1158 | down the rows the thresholds ascend, and with them the average and the share |

## Left out

- Data loading, printing and file output are not modelled: `load_singapore_data` (lines 55-82), the report lines, the CSV writing, the visualisation (lines 1209-1505) and `main` (lines 1514-1605). The plotting scripts only draw charts from those CSV files.
- The GTFS tables are taken as already joined and sorted. A trip is its line and its stop ids in `stop_sequence` order, and trips come in the order the source iterates them. The pandas merge, group-by and sort are not modelled.
- Coordinates, `haversine_distance` (lines 442-453) and the route lengths (lines 392-412, 790-798) are left out because they are floating-point trigonometry. The total length of a disrupted network is a parameter of the resilience setting, `length(failed)`.
- Sme.EstimateArea: the convex hull comes from scipy and is a parameter. So is the cosine of the reference latitude. `hasHull` stands for `HAS_SCIPY`. The coordinate check at line 1095 and the hull's exception (lines 1111-1112) are not modelled.
- Sme.ComputeSme: `max_travel_time` (lines 1141, 1149-1155) is not computed. It is only reported and feeds nothing else.
- Sme.Efficiency: it requires a non-zero total track length, where Python would raise `ZeroDivisionError`.
- Fri.ComputeFri: the random sample drawn by `np.random.choice` is a parameter `sample(p, run)`. Its size and its membership in the baseline are not constrained. The betweenness centralities are a parameter too.
- TravelTimes.ParseInt: only the ASCII digits `0`-`9` are taken as digits. Python's `int()` also accepts other Unicode decimal digits (category Nd); the Unicode digit table is not modelled.
- Fri.NumFail: `int(len * prob)` is modelled as the exact whole part of n·p/100. Floating-point rounding of `0.05 * n` and the like is not modelled.
- All arithmetic is on exact reals: σ, τ, ρ, Bpc, the ratios, the means and the percentages. Floating-point rounding is not modelled.
- Network.FullGraphOf: it returns None when a full edge has no travel time. The source's estimate for that case (lines 509-516) divides by `AVERAGE_SUBWAY_SPEED_KMH`, which the file never defines, so it raises `NameError` there.
- `compute_fri_baseline` (lines 742-769) has no member of its own. It is `Indicators.ComputeIndicators` followed by `Indicators.Bpc`, and the model takes the baseline Bpc as part of the resilience setting.
- Fri.ComputeFri: it requires a baseline graph with nodes. On an empty graph the source's `nx.is_connected` raises.
- Indicators.ComputeIndicators: it returns None for a graph without nodes, where `nx.is_connected` raises. Callers reach it only with nodes left.
- Graphs.IsConnected: it requires a non-empty graph, for the same reason.
- Set and dictionary iteration orders are parameters where they matter: the order of the special set and of each station's lines in the repair (`Simplified.RepairIsolated`). Elsewhere, nodes come in increasing station id, the order in which the graphs insert them.
- Reachability.ShortestTimes: it states the distances, not the heap's tie order. The floating-point comparison of `cutoff` is exact here.
- Names, the `is_multiple_use` and `distance` attributes, the failed-station log and the problematic-pairs report are output only and are left out.
