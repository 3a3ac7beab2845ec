/**
 * Lane metadata index (lane_api.py, `get_lane_properties` with the enums
 * `LaneDirection`, `LaneType` and the dataclass `LaneProperties`).
 *
 * The persisted feature collection is passed in as an already decoded list
 * of features; for every feature of the requested lane group the index
 * records the directions its maneuvers name and its parsed lane type.
 */
module LaneMetadata {

  import opened Wrappers
  import opened Strings

  datatype LaneDirection = Left | Right | Straight

  /** The enum value of a direction, as `str(direction.value)` renders it. */
  function DirectionValue(d: LaneDirection): string
  {
    match d
    case Left => "LEFT"
    case Right => "RIGHT"
    case Straight => "STRAIGHT"
  }

  datatype LaneType = Vehicle | Crosswalk | BikeLane | TrackedVehicle

  /** The enum value (equal to its name) of a lane type. */
  function TypeName(t: LaneType): string
  {
    match t
    case Vehicle => "VEHICLE"
    case Crosswalk => "CROSSWALK"
    case BikeLane => "BIKE_LANE"
    case TrackedVehicle => "TRACKED_VEHICLE"
  }

  /** `LaneType(s)`: lookup by value; `None` where Python raises ValueError. */
  function ParseLaneType(s: string): (r: Option<LaneType>)
    ensures r.Some? ==> TypeName(r.value) == s
    ensures r.None? ==> forall t: LaneType :: TypeName(t) != s
  {
    if s == "VEHICLE" then Some(Vehicle)
    else if s == "CROSSWALK" then Some(Crosswalk)
    else if s == "BIKE_LANE" then Some(BikeLane)
    else if s == "TRACKED_VEHICLE" then Some(TrackedVehicle)
    else None
  }

  /** One entry of a feature's `connections` list. */
  datatype Connection = Connection(maneuvers: seq<string>)

  /** The `properties` of one feature of the static lane collection. */
  datatype LaneFeature = LaneFeature(
    laneId: string,
    laneGroupId: string,
    laneType: string,
    connections: seq<Connection>)

  datatype LaneProperties = LaneProperties(id: string, directions: seq<LaneDirection>, laneType: LaneType)

  /** The ValueError raised by `LaneType(...)`, carrying the offending value. */
  datatype LoadError = UnknownLaneType(value: string)

  /** The order in which a maneuver's directions are tested: LEFT, then RIGHT, then STRAIGHT. */
  function Rank(d: LaneDirection): nat
  {
    match d
    case Left => 0
    case Right => 1
    case Straight => 2
  }

  /**
   * The direction one maneuver string contributes: the first of LEFT, RIGHT,
   * STRAIGHT whose name occurs in it, or nothing.
   */
  function ManeuverDirection(m: string): Option<LaneDirection>
  {
    if Contains(m, "LEFT") then Some(Left)
    else if Contains(m, "RIGHT") then Some(Right)
    else if Contains(m, "STRAIGHT") then Some(Straight)
    else None
  }

  /**
   * A maneuver yields a direction whose name occurs in it and no name tested
   * earlier occurs; it yields nothing exactly when no name occurs.
   */
  lemma ManeuverDirectionSpec(m: string)
    ensures ManeuverDirection(m).Some? ==> Contains(m, DirectionValue(ManeuverDirection(m).value))
    ensures ManeuverDirection(m).Some? ==>
              forall d :: Rank(d) < Rank(ManeuverDirection(m).value) ==> !Contains(m, DirectionValue(d))
    ensures ManeuverDirection(m).None? <==> forall d :: !Contains(m, DirectionValue(d))
  {
  }

  /** The directions appended while scanning a list of maneuvers, in scan order. */
  function ManeuverDirections(ms: seq<string>): seq<LaneDirection>
    decreases |ms|
  {
    if ms == [] then []
    else ManeuverDirections(ms[..|ms| - 1]) + OptionToSeq(ManeuverDirection(ms[|ms| - 1]))
  }

  /** The list `lane_directions` before duplicates are removed. */
  function ConnectionDirections(cs: seq<Connection>): seq<LaneDirection>
    decreases |cs|
  {
    if cs == [] then []
    else ConnectionDirections(cs[..|cs| - 1]) + ManeuverDirections(cs[|cs| - 1].maneuvers)
  }

  /** The number of maneuvers over all connections. */
  function ManeuverCount(cs: seq<Connection>): nat
    decreases |cs|
  {
    if cs == [] then 0 else ManeuverCount(cs[..|cs| - 1]) + |cs[|cs| - 1].maneuvers|
  }

  /** Direction `d` is the contribution of maneuver `j` of connection `i`. */
  predicate NamedBy(cs: seq<Connection>, d: LaneDirection, i: int, j: int)
  {
    0 <= i < |cs| && 0 <= j < |cs[i].maneuvers| && ManeuverDirection(cs[i].maneuvers[j]) == Some(d)
  }

  lemma {:induction false} ManeuverDirectionsMembers(ms: seq<string>)
    ensures |ManeuverDirections(ms)| <= |ms|
    ensures forall d :: d in ManeuverDirections(ms) <==> exists j :: 0 <= j < |ms| && ManeuverDirection(ms[j]) == Some(d)
    decreases |ms|
  {
    if ms != [] {
      var init := ms[..|ms| - 1];
      ManeuverDirectionsMembers(init);
      forall d | exists j :: 0 <= j < |ms| && ManeuverDirection(ms[j]) == Some(d)
        ensures d in ManeuverDirections(ms)
      {
        var j :| 0 <= j < |ms| && ManeuverDirection(ms[j]) == Some(d);
        if j < |ms| - 1 {
          assert init[j] == ms[j];
        }
      }
    }
  }

  /** Some maneuver of `init + [last]` names `d` iff one of `init` does or one of `last` does. */
  lemma NamedBySplit(init: seq<Connection>, last: Connection, d: LaneDirection)
    ensures (exists i, j :: NamedBy(init + [last], d, i, j))
            <==> (exists i, j :: NamedBy(init, d, i, j))
                 || (exists j :: 0 <= j < |last.maneuvers| && ManeuverDirection(last.maneuvers[j]) == Some(d))
  {
    var cs := init + [last];
    if exists i, j :: NamedBy(cs, d, i, j) {
      var i, j :| NamedBy(cs, d, i, j);
      if i < |init| {
        assert NamedBy(init, d, i, j);
      } else {
        assert cs[i] == last;
      }
    }
    if exists i, j :: NamedBy(init, d, i, j) {
      var i, j :| NamedBy(init, d, i, j);
      assert NamedBy(cs, d, i, j);
    }
    if exists j :: 0 <= j < |last.maneuvers| && ManeuverDirection(last.maneuvers[j]) == Some(d) {
      var j :| 0 <= j < |last.maneuvers| && ManeuverDirection(last.maneuvers[j]) == Some(d);
      assert NamedBy(cs, d, |init|, j);
    }
  }

  /**
   * Each maneuver contributes at most one direction, and a direction is in
   * the list exactly when some maneuver of some connection contributes it.
   */
  lemma {:induction false} ConnectionDirectionsMembers(cs: seq<Connection>)
    ensures |ConnectionDirections(cs)| <= ManeuverCount(cs)
    ensures forall d :: d in ConnectionDirections(cs) <==> exists i, j :: NamedBy(cs, d, i, j)
    decreases |cs|
  {
    if cs != [] {
      var init, last := cs[..|cs| - 1], cs[|cs| - 1];
      ConnectionDirectionsMembers(init);
      ManeuverDirectionsMembers(last.maneuvers);
      assert cs == init + [last];
      forall d
        ensures d in ConnectionDirections(cs) <==> exists i, j :: NamedBy(cs, d, i, j)
      {
        NamedBySplit(init, last, d);
      }
    }
  }

  /**
   * The inner loops over connections and maneuvers: one direction appended
   * per maneuver that names one.
   */
  method CollectDirections(cs: seq<Connection>) returns (ds: seq<LaneDirection>)
    ensures ds == ConnectionDirections(cs)
  {
    ds := [];
    for i := 0 to |cs|
      invariant ds == ConnectionDirections(cs[..i])
    {
      var ms := cs[i].maneuvers;
      for j := 0 to |ms|
        invariant ds == ConnectionDirections(cs[..i]) + ManeuverDirections(ms[..j])
      {
        assert ms[..j + 1][..j] == ms[..j];
        var d := ManeuverDirection(ms[j]);
        if d.Some? {
          ds := ds + [d.value];
        }
      }
      assert ms[..|ms|] == ms;
      assert cs[..i + 1][..i] == cs[..i];
    }
    assert cs[..|cs|] == cs;
  }

  /** No element occurs twice. */
  predicate NoDuplicates<T(==)>(s: seq<T>)
  {
    forall i, j :: 0 <= i < j < |s| ==> s[i] != s[j]
  }

  /**
   * `list(set(ds))`: the same directions, each once. Python's set iteration
   * order is not specified, so neither is the order of `r`.
   */
  method RemoveDuplicates(ds: seq<LaneDirection>) returns (r: seq<LaneDirection>)
    ensures NoDuplicates(r)
    ensures forall d :: d in r <==> d in ds
  {
    r := [];
    for i := 0 to |ds|
      invariant NoDuplicates(r)
      invariant forall d :: d in r <==> d in ds[..i]
    {
      if ds[i] !in r {
        r := r + [ds[i]];
      }
      assert ds[..i + 1] == ds[..i] + [ds[i]];
    }
    assert ds[..|ds|] == ds;
  }

  /** A duplicate-free sequence has as many elements as it has distinct members. */
  lemma {:induction false} NoDuplicatesCardinality<T>(r: seq<T>)
    requires NoDuplicates(r)
    ensures |set x | x in r| == |r|
  {
    if r != [] {
      var tail := r[1..];
      assert NoDuplicates(tail);
      NoDuplicatesCardinality(tail);
      assert (set x | x in r) == {r[0]} + (set x | x in tail);
      assert r[0] !in tail;
    }
  }

  /** A duplicate-free list whose only member is `d` is `[d]`. */
  lemma SingleDirection(r: seq<LaneDirection>, d: LaneDirection)
    requires NoDuplicates(r)
    requires forall x :: x in r <==> x == d
    ensures r == [d]
  {
    assert (set x | x in r) == {d};
    NoDuplicatesCardinality(r);
    assert r[0] in r;
  }

  /**
   * Maneuvers that all name LEFT (say "LEFT_TURN" and "U_LEFT") give the
   * lane the one direction LEFT: the collected directions are all LEFT, and
   * their de-duplicated list `r` is exactly `[LEFT]`.
   */
  lemma AllLeftManeuvers(cs: seq<Connection>, r: seq<LaneDirection>)
    requires exists c :: c in cs && c.maneuvers != []
    requires forall i, j :: 0 <= i < |cs| && 0 <= j < |cs[i].maneuvers| ==> Contains(cs[i].maneuvers[j], "LEFT")
    requires NoDuplicates(r) && forall d :: d in r <==> d in ConnectionDirections(cs)
    ensures (set d | d in ConnectionDirections(cs)) == {Left}
    ensures r == [Left]
  {
    ConnectionDirectionsMembers(cs);
    var c :| c in cs && c.maneuvers != [];
    var i :| 0 <= i < |cs| && cs[i] == c;
    assert NamedBy(cs, Left, i, 0);
    forall d | d in ConnectionDirections(cs)
      ensures d == Left
    {
      var i', j' :| NamedBy(cs, d, i', j');
    }
    SingleDirection(r, Left);
  }

  /** What the index records for one lane: its direction set and its type. */
  datatype LaneSummary = LaneSummary(directions: set<LaneDirection>, laneType: LaneType)

  function Summarize(f: LaneFeature, t: LaneType): LaneSummary
  {
    LaneSummary((set d | d in ConnectionDirections(f.connections)), t)
  }

  /**
   * The index built from the features in list order: features of other lane
   * groups are passed over, a later feature with the same lane id replaces
   * an earlier one, and the first unknown lane type of the group aborts.
   */
  function LaneIndex(fs: seq<LaneFeature>, groupId: string): Result<map<string, LaneSummary>, LoadError>
    decreases |fs|
  {
    if fs == [] then Success(map[])
    else AddFeature(LaneIndex(fs[..|fs| - 1], groupId), fs[|fs| - 1], groupId)
  }

  /** One turn of the loop over the features. */
  function AddFeature(prev: Result<map<string, LaneSummary>, LoadError>, f: LaneFeature, groupId: string)
    : Result<map<string, LaneSummary>, LoadError>
  {
    if prev.Failure? || f.laneGroupId != groupId then prev
    else match ParseLaneType(f.laneType)
      case None => Failure(UnknownLaneType(f.laneType))
      case Some(t) => Success(prev.value[f.laneId := Summarize(f, t)])
  }

  lemma LaneIndexAppend(fs: seq<LaneFeature>, f: LaneFeature, groupId: string)
    ensures LaneIndex(fs + [f], groupId) == AddFeature(LaneIndex(fs, groupId), f, groupId)
  {
    assert (fs + [f])[..|fs|] == fs;
  }

  /** Feature `i` belongs to the lane group and has lane type that cannot be parsed. */
  predicate BadFeature(fs: seq<LaneFeature>, groupId: string, i: int)
  {
    0 <= i < |fs| && fs[i].laneGroupId == groupId && ParseLaneType(fs[i].laneType).None?
  }

  /** The load fails exactly when some feature of the group has an unknown lane type. */
  lemma {:induction false} LaneIndexFailsIffUnknownType(fs: seq<LaneFeature>, groupId: string)
    ensures LaneIndex(fs, groupId).Failure? <==> exists i :: BadFeature(fs, groupId, i)
    decreases |fs|
  {
    if fs != [] {
      var init := fs[..|fs| - 1];
      LaneIndexFailsIffUnknownType(init, groupId);
      if BadFeature(fs, groupId, |fs| - 1) {
        assert exists i :: BadFeature(fs, groupId, i);
      }
      if exists i :: BadFeature(init, groupId, i) {
        var i :| BadFeature(init, groupId, i);
        assert BadFeature(fs, groupId, i);
      }
      if exists i :: BadFeature(fs, groupId, i) {
        var i :| BadFeature(fs, groupId, i);
        if i < |fs| - 1 {
          assert BadFeature(init, groupId, i);
        }
      }
    }
  }

  /** Once the load has failed, later features do not change the outcome. */
  lemma {:induction false} LaneIndexFailurePersists(fs: seq<LaneFeature>, n: nat, groupId: string)
    requires n <= |fs|
    requires LaneIndex(fs[..n], groupId).Failure?
    ensures LaneIndex(fs, groupId) == LaneIndex(fs[..n], groupId)
    decreases |fs| - n
  {
    if n < |fs| {
      assert fs[..n + 1][..n] == fs[..n];
      LaneIndexFailurePersists(fs, n + 1, groupId);
    } else {
      assert fs[..n] == fs;
    }
  }

  /** Feature `i` belongs to the lane group and has lane id `id`. */
  predicate Defines(fs: seq<LaneFeature>, groupId: string, id: string, i: int)
  {
    0 <= i < |fs| && fs[i].laneGroupId == groupId && fs[i].laneId == id
  }

  /** Feature `i` is the last feature of the group with lane id `id`. */
  predicate LastDefinition(fs: seq<LaneFeature>, groupId: string, id: string, i: int)
  {
    Defines(fs, groupId, id, i) && forall j :: i < j < |fs| ==> !Defines(fs, groupId, id, j)
  }

  /** Summary `s` is what the last feature of the group with lane id `id` describes. */
  ghost predicate DescribedByLast(fs: seq<LaneFeature>, groupId: string, id: string, s: LaneSummary)
  {
    exists i :: LastDefinition(fs, groupId, id, i)
      && ParseLaneType(fs[i].laneType).Some?
      && s == Summarize(fs[i], ParseLaneType(fs[i].laneType).value)
  }

  /** Every feature of the requested group has its lane in a successful load. */
  lemma {:induction false} LaneIndexCoversGroup(fs: seq<LaneFeature>, groupId: string)
    requires LaneIndex(fs, groupId).Success?
    ensures forall i :: 0 <= i < |fs| && fs[i].laneGroupId == groupId ==> fs[i].laneId in LaneIndex(fs, groupId).value
    decreases |fs|
  {
    if fs != [] {
      var init := fs[..|fs| - 1];
      LaneIndexCoversGroup(init, groupId);
      forall i | 0 <= i < |fs| - 1 && fs[i].laneGroupId == groupId
        ensures fs[i].laneId in LaneIndex(fs, groupId).value
      {
        assert init[i] == fs[i];
      }
    }
  }

  /**
   * Every lane of a successful load comes from a feature of the requested
   * group, namely the last such feature with that lane id.
   */
  lemma {:induction false} LaneIndexEntries(fs: seq<LaneFeature>, groupId: string)
    requires LaneIndex(fs, groupId).Success?
    ensures forall id :: id in LaneIndex(fs, groupId).value ==> DescribedByLast(fs, groupId, id, LaneIndex(fs, groupId).value[id])
    decreases |fs|
  {
    if fs != [] {
      var init, f := fs[..|fs| - 1], fs[|fs| - 1];
      LaneIndexEntries(init, groupId);
      var m, m0 := LaneIndex(fs, groupId).value, LaneIndex(init, groupId).value;
      forall id | id in m
        ensures DescribedByLast(fs, groupId, id, m[id])
      {
        if f.laneGroupId == groupId && f.laneId == id {
          assert LastDefinition(fs, groupId, id, |fs| - 1);
        } else {
          assert id in m0 && m[id] == m0[id];
          assert DescribedByLast(init, groupId, id, m0[id]);
          var i :| LastDefinition(init, groupId, id, i)
                  && ParseLaneType(init[i].laneType).Some?
                  && m0[id] == Summarize(init[i], ParseLaneType(init[i].laneType).value);
          assert init[i] == fs[i];
          forall j | i < j < |fs|
            ensures !Defines(fs, groupId, id, j)
          {
            if j < |fs| - 1 {
              assert !Defines(init, groupId, id, j);
            }
          }
          assert LastDefinition(fs, groupId, id, i);
        }
      }
    }
  }

  /** The features of one lane group, in list order. */
  function OfGroup(fs: seq<LaneFeature>, groupId: string): (r: seq<LaneFeature>)
    decreases |fs|
  {
    if fs == [] then []
    else OfGroup(fs[..|fs| - 1], groupId) + (if fs[|fs| - 1].laneGroupId == groupId then [fs[|fs| - 1]] else [])
  }

  /** Features of other lane groups contribute nothing, not even an error. */
  lemma {:induction false} LaneIndexIgnoresOtherGroups(fs: seq<LaneFeature>, groupId: string)
    ensures LaneIndex(fs, groupId) == LaneIndex(OfGroup(fs, groupId), groupId)
    decreases |fs|
  {
    if fs != [] {
      var init, f := fs[..|fs| - 1], fs[|fs| - 1];
      LaneIndexIgnoresOtherGroups(init, groupId);
      if f.laneGroupId == groupId {
        assert OfGroup(fs, groupId) == OfGroup(init, groupId) + [f];
        LaneIndexAppend(OfGroup(init, groupId), f, groupId);
        calc {
          LaneIndex(OfGroup(fs, groupId), groupId);
          AddFeature(LaneIndex(OfGroup(init, groupId), groupId), f, groupId);
          AddFeature(LaneIndex(init, groupId), f, groupId);
          LaneIndex(fs, groupId);
        }
      } else {
        assert OfGroup(fs, groupId) == OfGroup(init, groupId);
        calc {
          LaneIndex(fs, groupId);
          AddFeature(LaneIndex(init, groupId), f, groupId);
          LaneIndex(init, groupId);
          LaneIndex(OfGroup(init, groupId), groupId);
        }
      }
    }
  }

  /** The summary of a loaded lane: its directions as a set and its type. */
  function SummaryOf(p: LaneProperties): LaneSummary
  {
    LaneSummary((set d | d in p.directions), p.laneType)
  }

  /** A loaded map with each lane's directions replaced by their set. */
  function Summaries(m: map<string, LaneProperties>): (r: map<string, LaneSummary>)
    ensures r.Keys == m.Keys
    ensures forall id :: id in m ==> r[id] == SummaryOf(m[id])
  {
    map id | id in m :: SummaryOf(m[id])
  }

  /** Each entry is stored under its own lane id and lists each direction once. */
  predicate WellFormed(m: map<string, LaneProperties>)
  {
    forall id :: id in m ==> m[id].id == id && NoDuplicates(m[id].directions)
  }

  function AsSummaries(r: Result<map<string, LaneProperties>, LoadError>): Result<map<string, LaneSummary>, LoadError>
  {
    match r
    case Success(m) => Success(Summaries(m))
    case Failure(e) => Failure(e)
  }

  /**
   * `get_lane_properties(lane_group_id)` over the decoded features: the
   * outcome is `LaneIndex` up to the order of each lane's directions.
   */
  method GetLaneProperties(features: seq<LaneFeature>, groupId: string)
    returns (r: Result<map<string, LaneProperties>, LoadError>)
    ensures AsSummaries(r) == LaneIndex(features, groupId)
    ensures r.Success? ==> WellFormed(r.value)
  {
    var props: map<string, LaneProperties> := map[];
    for i := 0 to |features|
      invariant LaneIndex(features[..i], groupId) == Success(Summaries(props))
      invariant WellFormed(props)
    {
      var f := features[i];
      assert features[..i + 1][..i] == features[..i];
      if f.laneGroupId != groupId {
        continue;
      }
      var ds := CollectDirections(f.connections);
      ds := RemoveDuplicates(ds);
      var t := ParseLaneType(f.laneType);
      if t.None? {
        r := Failure(UnknownLaneType(f.laneType));
        LaneIndexFailurePersists(features, i + 1, groupId);
        return;
      }
      var p := LaneProperties(f.laneId, ds, t.value);
      assert SummaryOf(p) == Summarize(f, t.value);
      assert LaneIndex(features[..i + 1], groupId) == Success(Summaries(props)[f.laneId := SummaryOf(p)]);
      assert Summaries(props[f.laneId := p]) == Summaries(props)[f.laneId := SummaryOf(p)];
      props := props[f.laneId := p];
    }
    assert features[..|features|] == features;
    r := Success(props);
  }
}
