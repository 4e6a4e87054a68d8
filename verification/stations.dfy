/** Grouping of GTFS stops into stations (identify_unique_stations): a stop with
    a non-empty parent_station belongs to that parent; any other stop belongs to
    the station named by its stop name with the platform part in parentheses
    removed. Stations are numbered in the order their key is first seen. */
module Stations {
  import opened Core

  /** One row of stops.txt; `parent` is None where the column is absent or the cell is empty. */
  datatype Stop = Stop(id: StopId, name: string, parent: Option<string>, lat: real, lon: real)

  /** One row of the stations table. */
  datatype Station = Station(id: StationId, name: string, lat: real, lon: real, stopIds: seq<StopId>)

  /** The position of the first `c` in `s` (str.index), or None when `c` is not in `s`. */
  function FirstIndex(s: string, c: char): (r: Option<nat>)
    ensures r.None? <==> c !in s
    ensures r.Some? ==> r.value < |s| && s[r.value] == c && c !in s[..r.value]
  {
    if s == [] then None
    else if s[0] == c then Some(0)
    else
      match FirstIndex(s[1..], c)
      case None => None
      case Some(i) =>
        assert s[..i + 1] == [s[0]] + s[1..][..i];
        Some(i + 1)
  }

  /** A stop name without its platform part: the text before the first '(' with its
      surrounding whitespace stripped; a name without '(' is kept as it is. */
  function CleanName(name: string): (r: string)
    ensures '(' !in r
    ensures '(' !in name ==> r == name
  {
    match FirstIndex(name, '(')
    case None => name
    case Some(i) =>
      var r := Strip(name[..i]);
      assert forall j :: 0 <= j < |r| ==> r[j] == name[..i][LeadingSpaces(name[..i]) + j];
      r
  }

  /** The grouping key of a stop. */
  function StationKey(stop: Stop): string
  {
    if stop.parent.Some? && stop.parent.value != "" then stop.parent.value else CleanName(stop.name)
  }

  // ---------------------------------------------------------------------------
  // Specification of the grouping

  /** The distinct keys of `stops` in the order they are first seen. */
  function KeysOf(stops: seq<Stop>): (keys: seq<string>)
    ensures forall i, j :: 0 <= i < j < |keys| ==> keys[i] != keys[j]
    ensures forall i :: 0 <= i < |stops| ==> StationKey(stops[i]) in keys
    ensures forall k :: k in keys ==> exists i :: 0 <= i < |stops| && StationKey(stops[i]) == k
  {
    if stops == [] then []
    else
      var prev := KeysOf(stops[..|stops| - 1]);
      var k := StationKey(stops[|stops| - 1]);
      assert forall i :: 0 <= i < |stops| - 1 ==> stops[..|stops| - 1][i] == stops[i];
      if k in prev then prev else prev + [k]
  }

  /** The stops whose key is `key`, in input order. */
  function Members(stops: seq<Stop>, key: string): (group: seq<Stop>)
    ensures |group| <= |stops|
  {
    if stops == [] then []
    else
      var prev := Members(stops[..|stops| - 1], key);
      if StationKey(stops[|stops| - 1]) == key then prev + [stops[|stops| - 1]] else prev
  }

  /** A stop belongs to the group of a key exactly when it is one of the stops and has that key;
      so the groups partition the stops. */
  lemma {:induction false} MembersExactly(stops: seq<Stop>, key: string, s: Stop)
    ensures s in Members(stops, key) <==> s in stops && StationKey(s) == key
  {
    if stops != [] {
      var prefix := stops[..|stops| - 1];
      MembersExactly(prefix, key, s);
      assert stops == prefix + [stops[|stops| - 1]];
    }
  }

  /** Every key that is seen has a non-empty group. */
  lemma KeyHasMembers(stops: seq<Stop>, key: string)
    requires key in KeysOf(stops)
    ensures Members(stops, key) != []
  {
    var i :| 0 <= i < |stops| && StationKey(stops[i]) == key;
    MembersExactly(stops, key, stops[i]);
  }

  /** A key with a non-empty group has been seen. */
  lemma MembersSeen(stops: seq<Stop>, key: string)
    ensures Members(stops, key) != [] ==> key in KeysOf(stops)
  {
    if Members(stops, key) != [] {
      var s := Members(stops, key)[0];
      MembersExactly(stops, key, s);
      var i :| 0 <= i < |stops| && stops[i] == s;
    }
  }

  function Own(stop: Stop, key: string): seq<Stop>
  {
    if StationKey(stop) == key then [stop] else []
  }

  /** How the keys and the groups grow by one stop. */
  lemma GroupsStep(stops: seq<Stop>, i: nat)
    requires i < |stops|
    ensures KeysOf(stops[..i + 1]) ==
      if StationKey(stops[i]) in KeysOf(stops[..i]) then KeysOf(stops[..i])
      else KeysOf(stops[..i]) + [StationKey(stops[i])]
    ensures forall k :: Members(stops[..i + 1], k) == Members(stops[..i], k) + Own(stops[i], k)
  {
    assert stops[..i + 1][..i] == stops[..i];
  }

  /** `keys` are the distinct keys in first-seen order and `groups` maps each of them,
      and nothing else, to its non-empty group of stops. */
  ghost predicate Grouped(stops: seq<Stop>, keys: seq<string>, groups: map<string, seq<Stop>>)
  {
    && keys == KeysOf(stops)
    && (forall k :: k in groups <==> k in keys)
    && (forall k :: k in groups ==> groups[k] == Members(stops, k) && groups[k] != [])
  }

  /** The first loop: `station_groups`, a dictionary from key to the list of its stops,
      together with its keys in insertion order. */
  method GroupStations(stops: seq<Stop>) returns (keys: seq<string>, groups: map<string, seq<Stop>>)
    ensures Grouped(stops, keys, groups)
  {
    keys, groups := [], map[];
    for i := 0 to |stops|
      invariant keys == KeysOf(stops[..i])
      invariant forall k :: k in groups <==> k in keys
      invariant forall k :: k in groups ==> groups[k] == Members(stops[..i], k)
    {
      keys, groups := GroupStop(stops, i, keys, groups);
    }
    assert stops[..|stops|] == stops;
    forall k | k in groups
      ensures groups[k] != []
    {
      KeyHasMembers(stops, k);
    }
  }

  /** One pass of the first loop: the stop's key is added when it is new, and the
      stop is appended to its key's group. */
  method GroupStop(stops: seq<Stop>, i: nat, keys: seq<string>, groups: map<string, seq<Stop>>)
    returns (keys': seq<string>, groups': map<string, seq<Stop>>)
    requires i < |stops|
    requires keys == KeysOf(stops[..i])
    requires forall k :: k in groups <==> k in keys
    requires forall k :: k in groups ==> groups[k] == Members(stops[..i], k)
    ensures keys' == KeysOf(stops[..i + 1])
    ensures forall k :: k in groups' <==> k in keys'
    ensures forall k :: k in groups' ==> groups'[k] == Members(stops[..i + 1], k)
  {
    keys', groups' := keys, groups;
    var key := StationKey(stops[i]);
    GroupsStep(stops, i);
    if key !in groups' {
      MembersSeen(stops[..i], key);
      keys' := keys' + [key];
      groups' := groups'[key := []];
    }
    groups' := groups'[key := groups'[key] + [stops[i]]];
  }

  // ---------------------------------------------------------------------------
  // Station rows

  /** The index of the first of the shortest names: min(names, key=len). */
  function Shortest(names: seq<string>): (r: nat)
    requires names != []
    ensures r < |names|
    ensures forall j :: 0 <= j < |names| ==> |names[r]| <= |names[j]|
    ensures forall j :: 0 <= j < r ==> |names[j]| > |names[r]|
  {
    if |names| == 1 then 0
    else
      var p := Shortest(names[..|names| - 1]);
      if |names[|names| - 1]| < |names[p]| then |names| - 1 else p
  }

  function Ids(group: seq<Stop>): seq<StopId>
  {
    seq(|group|, i requires 0 <= i < |group| => group[i].id)
  }

  /** The station name: the shortest stop name of the group, cleaned. */
  function StationName(group: seq<Stop>): string
    requires group != []
  {
    var names := seq(|group|, i requires 0 <= i < |group| => group[i].name);
    CleanName(names[Shortest(names)])
  }

  /** A station whose stops all carry no parent is named by its grouping key. */
  lemma NamedByKey(stops: seq<Stop>, key: string)
    requires Members(stops, key) != []
    requires forall s :: s in stops && StationKey(s) == key ==> s.parent.None?
    ensures StationName(Members(stops, key)) == key
  {
    var group := Members(stops, key);
    var names := seq(|group|, i requires 0 <= i < |group| => group[i].name);
    var s := group[Shortest(names)];
    MembersExactly(stops, key, s);
  }

  function Lats(group: seq<Stop>): seq<real>
  {
    seq(|group|, i requires 0 <= i < |group| => group[i].lat)
  }

  function Lons(group: seq<Stop>): seq<real>
  {
    seq(|group|, i requires 0 <= i < |group| => group[i].lon)
  }

  /** The row of station `id`: the mean of its stops' coordinates, its cleaned
      shortest name and its stop ids in input order. */
  function Summary(id: StationId, group: seq<Stop>): Station
    requires group != []
  {
    Station(id, StationName(group), Mean(Lats(group)), Mean(Lons(group)), Ids(group))
  }

  /** A station lies inside any latitude/longitude box that holds all of its stops. */
  lemma SummaryInsideBox(id: StationId, group: seq<Stop>, latLo: real, latHi: real, lonLo: real, lonHi: real)
    requires group != []
    requires forall s :: s in group ==> latLo <= s.lat <= latHi && lonLo <= s.lon <= lonHi
    ensures latLo <= Summary(id, group).lat <= latHi
    ensures lonLo <= Summary(id, group).lon <= lonHi
  {
    assert forall i :: 0 <= i < |group| ==> group[i] in group;
    MeanWithin(Lats(group), latLo, latHi);
    MeanWithin(Lons(group), lonLo, lonHi);
  }

  /** The group of the i-th key, or [] outside the keys. */
  function GroupAt(keys: seq<string>, groups: map<string, seq<Stop>>, i: int): seq<Stop>
  {
    if 0 <= i < |keys| && keys[i] in groups then groups[keys[i]] else []
  }

  /** The group of the j-th key holds a stop with id `id`. */
  ghost predicate Holds(keys: seq<string>, groups: map<string, seq<Stop>>, j: int, id: StopId)
  {
    id in Ids(GroupAt(keys, groups, j))
  }

  /** `s` is the largest index below `n` whose group holds a stop with id `id`. */
  ghost predicate LastHolder(keys: seq<string>, groups: map<string, seq<Stop>>, id: StopId, s: int, n: int)
  {
    0 <= s < n && Holds(keys, groups, s, id) && forall j :: s < j < n ==> !Holds(keys, groups, j, id)
  }

  /** After the groups below `n`: the ids assigned are those held by some group below
      `n`, each assigned to the last group below `n` that holds it. */
  ghost predicate AssignedUpTo(keys: seq<string>, groups: map<string, seq<Stop>>, m: map<StopId, StationId>, n: int)
  {
    && (forall id :: id in m <==> exists j :: 0 <= j < n && Holds(keys, groups, j, id))
    && (forall id :: id in m ==> LastHolder(keys, groups, id, m[id], n))
  }

  /** Part way through group `i`: its first `t` stops are assigned to `i`. */
  ghost predicate AssignedWithin(keys: seq<string>, groups: map<string, seq<Stop>>, m: map<StopId, StationId>, i: int, t: int)
  {
    var group := GroupAt(keys, groups, i);
    && 0 <= t <= |group|
    && (forall id :: id in m <==> (exists j :: 0 <= j < i && Holds(keys, groups, j, id)) || id in Ids(group[..t]))
    && (forall id :: id in m ==>
          if id in Ids(group[..t]) then m[id] == i else LastHolder(keys, groups, id, m[id], i))
  }

  lemma AssignBegin(keys: seq<string>, groups: map<string, seq<Stop>>, m: map<StopId, StationId>, i: int)
    requires AssignedUpTo(keys, groups, m, i)
    ensures AssignedWithin(keys, groups, m, i, 0)
  {
    assert Ids(GroupAt(keys, groups, i)[..0]) == [];
  }

  lemma AssignStop(keys: seq<string>, groups: map<string, seq<Stop>>, m: map<StopId, StationId>, i: nat, t: int)
    requires AssignedWithin(keys, groups, m, i, t) && t < |GroupAt(keys, groups, i)|
    ensures AssignedWithin(keys, groups, m[GroupAt(keys, groups, i)[t].id := i], i, t + 1)
  {
    var group := GroupAt(keys, groups, i);
    assert Ids(group[..t + 1]) == Ids(group[..t]) + [group[t].id];
  }

  lemma AssignEnd(keys: seq<string>, groups: map<string, seq<Stop>>, m: map<StopId, StationId>, i: nat)
    requires AssignedWithin(keys, groups, m, i, |GroupAt(keys, groups, i)|)
    ensures AssignedUpTo(keys, groups, m, i + 1)
  {
    var group := GroupAt(keys, groups, i);
    assert group[..|group|] == group;
    forall id | id in m
      ensures LastHolder(keys, groups, id, m[id], i + 1)
    {
      AssignEndLast(keys, groups, m, i, id);
    }
  }

  lemma AssignEndLast(keys: seq<string>, groups: map<string, seq<Stop>>, m: map<StopId, StationId>, i: nat, id: StopId)
    requires AssignedWithin(keys, groups, m, i, |GroupAt(keys, groups, i)|) && id in m
    ensures LastHolder(keys, groups, id, m[id], i + 1)
  {
    var group := GroupAt(keys, groups, i);
    assert group[..|group|] == group;
    if id in Ids(group) {
      assert m[id] == i && Holds(keys, groups, i, id);
    } else {
      assert !Holds(keys, groups, i, id);
      assert LastHolder(keys, groups, id, m[id], i);
    }
  }

  /** The second loop: one station row per key, and stop_to_station, in which a
      stop id is assigned, group after group, to every station whose group holds it,
      so the last such station wins. */
  method NumberStations(keys: seq<string>, groups: map<string, seq<Stop>>)
    returns (stations: seq<Station>, stopToStation: map<StopId, StationId>)
    requires forall k :: k in keys ==> k in groups && groups[k] != []
    ensures |stations| == |keys|
    ensures forall i :: 0 <= i < |keys| ==> stations[i] == Summary(i, groups[keys[i]])
    ensures AssignedUpTo(keys, groups, stopToStation, |keys|)
  {
    stations, stopToStation := [], map[];
    for i := 0 to |keys|
      invariant |stations| == i
      invariant forall j :: 0 <= j < i ==> stations[j] == Summary(j, groups[keys[j]])
      invariant AssignedUpTo(keys, groups, stopToStation, i)
    {
      var group := groups[keys[i]];
      assert group == GroupAt(keys, groups, i);
      stations := stations + [Summary(i, group)];
      stopToStation := AssignGroup(keys, groups, stopToStation, i);
    }
  }

  /** The inner loop: every stop of group `i` is assigned to station `i`. */
  method AssignGroup(keys: seq<string>, groups: map<string, seq<Stop>>, m: map<StopId, StationId>, i: nat)
    returns (m': map<StopId, StationId>)
    requires forall k :: k in keys ==> k in groups && groups[k] != []
    requires i < |keys| && AssignedUpTo(keys, groups, m, i)
    ensures AssignedUpTo(keys, groups, m', i + 1)
  {
    var group := groups[keys[i]];
    assert group == GroupAt(keys, groups, i);
    m' := m;
    AssignBegin(keys, groups, m', i);
    for t := 0 to |group|
      invariant AssignedWithin(keys, groups, m', i, t)
    {
      AssignStop(keys, groups, m', i, t);
      m' := m'[group[t].id := i];
    }
    AssignEnd(keys, groups, m', i);
  }

  /** Some stop with id `id` has the grouping key `key`. */
  ghost predicate KeyOfId(stops: seq<Stop>, id: StopId, key: string)
  {
    exists j :: 0 <= j < |stops| && stops[j].id == id && StationKey(stops[j]) == key
  }

  /** identify_unique_stations: one station per distinct key, numbered in first-seen
      order and carrying its group's stops; every stop id is mapped to the station of
      the key of a stop with that id, and an id used by a single stop is mapped to
      the station of that stop's own key. */
  method IdentifyUniqueStations(stops: seq<Stop>) returns (stations: seq<Station>, stopToStation: map<StopId, StationId>)
    ensures |stations| == |KeysOf(stops)|
    ensures forall i :: 0 <= i < |stations| ==>
      stations[i].id == i && stations[i].stopIds == Ids(Members(stops, KeysOf(stops)[i]))
    ensures stopToStation.Keys == set s | s in stops :: s.id
    ensures forall id :: id in stopToStation ==>
      stopToStation[id] < |KeysOf(stops)| && KeyOfId(stops, id, KeysOf(stops)[stopToStation[id]])
    ensures forall i :: 0 <= i < |stops| && (forall j :: 0 <= j < |stops| && stops[j].id == stops[i].id ==> j == i) ==>
      stops[i].id in stopToStation && KeysOf(stops)[stopToStation[stops[i].id]] == StationKey(stops[i])
  {
    var keys, groups := GroupStations(stops);
    stations, stopToStation := NumberStations(keys, groups);
    StationRows(stops, keys, groups, stations);
    AssignedIds(stops, keys, groups, stopToStation);
    AssignedKeys(stops, keys, groups, stopToStation);
  }

  lemma StationRows(stops: seq<Stop>, keys: seq<string>, groups: map<string, seq<Stop>>, stations: seq<Station>)
    requires Grouped(stops, keys, groups)
    requires |stations| == |keys|
    requires forall i :: 0 <= i < |keys| ==> stations[i] == Summary(i, groups[keys[i]])
    ensures forall i :: 0 <= i < |stations| ==>
      stations[i].id == i && stations[i].stopIds == Ids(Members(stops, keys[i]))
  {
    forall i | 0 <= i < |stations|
      ensures stations[i].id == i && stations[i].stopIds == Ids(Members(stops, keys[i]))
    {
      assert keys[i] in groups;
    }
  }

  /** Exactly the ids of the stops are assigned. */
  lemma AssignedIds(stops: seq<Stop>, keys: seq<string>, groups: map<string, seq<Stop>>, m: map<StopId, StationId>)
    requires Grouped(stops, keys, groups)
    requires AssignedUpTo(keys, groups, m, |keys|)
    ensures m.Keys == set s | s in stops :: s.id
  {
    forall id | id in m
      ensures exists s :: s in stops && s.id == id
    {
      AssignedIsStopId(stops, keys, groups, m, id);
    }
    forall s | s in stops
      ensures s.id in m
    {
      StopIdAssigned(stops, keys, groups, m, s);
    }
  }

  lemma AssignedIsStopId(stops: seq<Stop>, keys: seq<string>, groups: map<string, seq<Stop>>, m: map<StopId, StationId>, id: StopId)
    requires Grouped(stops, keys, groups)
    requires AssignedUpTo(keys, groups, m, |keys|) && id in m
    ensures exists s :: s in stops && s.id == id
  {
    var i :| 0 <= i < |keys| && Holds(keys, groups, i, id);
    assert keys[i] in groups && GroupAt(keys, groups, i) == groups[keys[i]];
    StopOfHeldId(stops, keys[i], id);
  }

  lemma StopOfHeldId(stops: seq<Stop>, key: string, id: StopId)
    requires id in Ids(Members(stops, key))
    ensures exists s :: s in stops && s.id == id
  {
    HeldBySomeStop(stops, key, id);
    var j :| 0 <= j < |stops| && stops[j].id == id && StationKey(stops[j]) == key;
    assert stops[j] in stops;
  }

  lemma StopIdAssigned(stops: seq<Stop>, keys: seq<string>, groups: map<string, seq<Stop>>, m: map<StopId, StationId>, s: Stop)
    requires Grouped(stops, keys, groups)
    requires AssignedUpTo(keys, groups, m, |keys|) && s in stops
    ensures s.id in m
  {
    var k := StationKey(s);
    var j :| 0 <= j < |keys| && keys[j] == k;
    MembersExactly(stops, k, s);
    HoldsOwnId(Members(stops, k), s);
    assert GroupAt(keys, groups, j) == Members(stops, k);
    assert Holds(keys, groups, j, s.id);
  }

  /** Every assigned id goes to the key of a stop with that id; an id held by one stop only
      goes to that stop's key. */
  lemma AssignedKeys(stops: seq<Stop>, keys: seq<string>, groups: map<string, seq<Stop>>, m: map<StopId, StationId>)
    requires Grouped(stops, keys, groups)
    requires AssignedUpTo(keys, groups, m, |keys|)
    requires m.Keys == set s | s in stops :: s.id
    ensures forall id :: id in m ==> m[id] < |keys| && KeyOfId(stops, id, keys[m[id]])
    ensures forall i :: 0 <= i < |stops| && (forall j :: 0 <= j < |stops| && stops[j].id == stops[i].id ==> j == i) ==>
      stops[i].id in m && keys[m[stops[i].id]] == StationKey(stops[i])
  {
    forall id | id in m
      ensures m[id] < |keys| && KeyOfId(stops, id, keys[m[id]])
    {
      LastHolderKey(stops, keys, groups, m, id);
    }
    forall i | 0 <= i < |stops| && (forall j :: 0 <= j < |stops| && stops[j].id == stops[i].id ==> j == i)
      ensures stops[i].id in m && keys[m[stops[i].id]] == StationKey(stops[i])
    {
      assert stops[i] in stops;
      assert KeyOfId(stops, stops[i].id, keys[m[stops[i].id]]);
    }
  }

  /** The station a stop id is assigned to is the station of the key of a stop with that id. */
  lemma LastHolderKey(stops: seq<Stop>, keys: seq<string>, groups: map<string, seq<Stop>>, m: map<StopId, StationId>, id: StopId)
    requires Grouped(stops, keys, groups)
    requires AssignedUpTo(keys, groups, m, |keys|) && id in m
    ensures m[id] < |keys| && KeyOfId(stops, id, keys[m[id]])
  {
    var s := m[id];
    assert LastHolder(keys, groups, id, s, |keys|);
    assert keys[s] in keys;
    assert GroupAt(keys, groups, s) == Members(stops, keys[s]);
    HeldBySomeStop(stops, keys[s], id);
  }

  lemma HeldBySomeStop(stops: seq<Stop>, key: string, id: StopId)
    requires id in Ids(Members(stops, key))
    ensures KeyOfId(stops, id, key)
  {
    var group := Members(stops, key);
    var t :| 0 <= t < |group| && group[t].id == id;
    MembersExactly(stops, key, group[t]);
  }

  lemma HoldsOwnId(group: seq<Stop>, s: Stop)
    requires s in group
    ensures s.id in Ids(group)
  {
    var t :| 0 <= t < |group| && group[t] == s;
    assert Ids(group)[t] == s.id;
  }
}
