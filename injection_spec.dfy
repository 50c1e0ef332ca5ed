/**
 * What one injection run does, as functions: how a LID's placement is
 * resolved, how its type is looked up, how a rain barrel splits its host,
 * which LID_USAGE record is appended, and the run over the whole LID list.
 * The imperative injector (module Injector) is proved to do exactly this.
 */
module InjectionSpec {
  import opened Wrappers
  import opened Format
  import opened SwmmInput
  import opened Parameters
  import opened ZoneLookup
  import opened Geometry
  import opened Identifiers
  import opened ZoneSplit

  /**
   * The state a run carries from one LID to the next: the model, the LID list
   * (placements filled in as they are resolved), the per-type counters, and
   * the instance ids issued so far.
   */
  datatype RunState = RunState(sections: Sections, lids: seq<Lid>, counter: map<string, nat>, ids: seq<string>)

  /** How many LIDs of type `t` the counter has seen (a Counter's default is 0). */
  function CountOf(counter: map<string, nat>, t: string): nat {
    if t in counter then counter[t] else 0
  }

  /** Every section other than `key` is the same in `r` and `s`. */
  ghost predicate SameOutside(r: Sections, s: Sections, key: string) {
    forall name :: name != key ==> (name in r <==> name in s) && (name in s ==> r[name] == s[name])
  }

  /** Every section other than `key1` and `key2` is the same in `r` and `s`. */
  ghost predicate SameOutsideBoth(r: Sections, s: Sections, key1: string, key2: string) {
    forall name :: name != key1 && name != key2 ==> (name in r <==> name in s) && (name in s ==> r[name] == s[name])
  }

  /** A location given in map coordinates gets the subcatchment whose polygon contains them. */
  function ResolveLocation(location: Location, index: PolygonIndex, contains: Containment): (r: Result<Location, Error>)
    requires ValidIndex(index)
    ensures location.mapCoords.None? ==> r == Ok(location)
    ensures r.Ok? && location.mapCoords.Some? ==>
      && r.value.mapCoords == location.mapCoords
      && r.value.subcatchment.Some?
      && r.value.subcatchment.value in index.polygons
      && contains(index.polygons[r.value.subcatchment.value], location.mapCoords.value)
    ensures r.Err? ==>
      location.mapCoords.Some? && r.error == PlacementError(location.mapCoords.value.x, location.mapCoords.value.y)
    ensures r.Err? <==>
      location.mapCoords.Some? &&
      forall n :: n in index.polygons ==> !contains(index.polygons[n], location.mapCoords.value)
  {
    match location.mapCoords
    case None => Ok(location)
    case Some(point) =>
      match SubcatchmentFromMapCoords(point, index, contains)
      case Ok(name) => Ok(location.(subcatchment := Some(name)))
      case Err(e) => Err(e)
  }

  /** A drain target given in map coordinates gets the subcatchment whose polygon contains them. */
  function ResolveDrain(drainTo: Option<DrainTo>, index: PolygonIndex, contains: Containment): (r: Result<Option<DrainTo>, Error>)
    requires ValidIndex(index)
    ensures drainTo.None? || drainTo.value.mapCoords.None? ==> r == Ok(drainTo)
    ensures r.Ok? && drainTo.Some? && drainTo.value.mapCoords.Some? ==>
      && r.value.Some?
      && r.value.value.mapCoords == drainTo.value.mapCoords
      && r.value.value.node == drainTo.value.node
      && r.value.value.subcatchment.Some?
      && r.value.value.subcatchment.value in index.polygons
      && contains(index.polygons[r.value.value.subcatchment.value], drainTo.value.mapCoords.value)
    ensures r.Err? ==>
      drainTo.Some? && drainTo.value.mapCoords.Some? &&
      r.error == PlacementError(drainTo.value.mapCoords.value.x, drainTo.value.mapCoords.value.y)
    ensures r.Err? <==>
      drainTo.Some? && drainTo.value.mapCoords.Some? &&
      forall n :: n in index.polygons ==> !contains(index.polygons[n], drainTo.value.mapCoords.value)
  {
    match drainTo
    case None => Ok(drainTo)
    case Some(d) =>
      match d.mapCoords
      case None => Ok(drainTo)
      case Some(point) =>
        match SubcatchmentFromMapCoords(point, index, contains)
        case Ok(name) => Ok(Some(d.(subcatchment := Some(name))))
        case Err(e) => Err(e)
  }

  /**
   * The structural category (Type field) of the first LID control named
   * `lidType`; a configuration error when there is no LID_CONTROLS section or
   * no control of that name.
   */
  function LidTypeCode(s: Sections, lidType: string): (r: Result<Value, Error>)
    requires WellFormed(s)
    ensures r == Err(NoLidControls) <==> LidControls !in s
    ensures r == Err(UnknownLidType(lidType)) <==>
      LidControls in s &&
      forall j :: 0 <= j < |LinesOf(s, LidControls)| ==> !FieldIs(LinesOf(s, LidControls)[j], LidControlName, lidType)
    ensures r.Err? ==> r.error == NoLidControls || r.error == UnknownLidType(lidType)
    ensures r.Ok? <==>
      LidControls in s &&
      exists j :: 0 <= j < |LinesOf(s, LidControls)| && FieldIs(LinesOf(s, LidControls)[j], LidControlName, lidType)
    ensures r.Ok? ==>
      exists j :: 0 <= j < |LinesOf(s, LidControls)| &&
        FieldIs(LinesOf(s, LidControls)[j], LidControlName, lidType) &&
        r.value == LinesOf(s, LidControls)[j].values[LidControlType] &&
        forall k :: 0 <= k < j ==> !FieldIs(LinesOf(s, LidControls)[k], LidControlName, lidType)
  {
    var lines := LinesOf(s, LidControls);
    if LidControls !in s then Err(NoLidControls)
    else
      match FindLine(lines, LidControlName, lidType)
      case None => Err(UnknownLidType(lidType))
      case Some(j) =>
        assert WellFormedLidControl(lines[j]);
        Ok(lines[j].values[LidControlType])
  }

  /** The drain field of a usage record: the drain subcatchment, else the drain node, else empty. */
  function DrainValue(drainTo: Option<DrainTo>): string {
    match drainTo
    case None => ""
    case Some(d) =>
      if d.subcatchment.Some? then d.subcatchment.value
      else if d.node.Some? then d.node.value
      else ""
  }

  /** The ten LID_USAGE fields of a placed LID. */
  function UsageRecord(lid: Lid): seq<Value>
    requires lid.location.subcatchment.Some?
  {
    [ Text(lid.location.subcatchment.value), Text(lid.lidType), Integer(lid.number), Decimal(lid.area),
      Decimal(lid.width), Decimal(lid.initSat), Decimal(lid.fromImp), Decimal(lid.toPerv),
      Text(lid.rptFile.GetOr("")), Text(DrainValue(lid.drainTo)) ]
  }

  /** A model stays well formed when only SUBCATCHMENTS or LID_USAGE changes and SUBCATCHMENTS stays well formed. */
  lemma WellFormedOutside(r: Sections, s: Sections, key: string)
    requires WellFormed(s) && SameOutside(r, s, key) && key != Polygons && key != LidControls
    requires forall j :: 0 <= j < |LinesOf(r, Subcatchments)| ==> WellFormedSubcatchment(LinesOf(r, Subcatchments)[j])
    ensures WellFormed(r)
  {
    assert LinesOf(r, Polygons) == LinesOf(s, Polygons);
    assert LinesOf(r, LidControls) == LinesOf(s, LidControls);
  }

  /** Append one record to LID_USAGE, creating the section (without a comment) when absent. */
  function AppendUsage(s: Sections, values: seq<Value>): (r: Sections)
    ensures LidUsage in r
    ensures LinesOf(r, LidUsage) == LinesOf(s, LidUsage) + [Line(values, None)]
    ensures LidUsage in s ==> r[LidUsage].comment == s[LidUsage].comment
    ensures LidUsage !in s ==> r[LidUsage].comment == None
    ensures SameOutside(r, s, LidUsage)
    ensures WellFormed(s) ==> WellFormed(r)
  {
    var section := if LidUsage in s then s[LidUsage] else Section([], None);
    var r := s[LidUsage := section.(lines := section.lines + [Line(values, None)])];
    if WellFormed(s) then
      assert LinesOf(r, Subcatchments) == LinesOf(s, Subcatchments);
      WellFormedOutside(r, s, LidUsage);
      r
    else r
  }

  /** Overwrite the field values of the `h`-th subcatchment record, keeping its comment. */
  function WithHostValues(s: Sections, h: nat, values: seq<Value>): (r: Sections)
    requires h < |LinesOf(s, Subcatchments)|
    ensures Subcatchments in r && r[Subcatchments].comment == s[Subcatchments].comment
    ensures LinesOf(r, Subcatchments) == LinesOf(s, Subcatchments)[h := Line(values, LinesOf(s, Subcatchments)[h].comment)]
    ensures SameOutside(r, s, Subcatchments)
    ensures WellFormed(s) && WellFormedSubcatchment(Line(values, None)) ==> WellFormed(r)
  {
    var section := s[Subcatchments];
    var r := s[Subcatchments := section.(lines := section.lines[h := section.lines[h].(values := values)])];
    if WellFormed(s) && WellFormedSubcatchment(Line(values, None)) then
      WellFormedOutside(r, s, Subcatchments);
      r
    else r
  }

  /** Append a subcatchment record. */
  function AppendSubcatchment(s: Sections, line: Line): (r: Sections)
    requires Subcatchments in s
    ensures Subcatchments in r && r[Subcatchments].comment == s[Subcatchments].comment
    ensures LinesOf(r, Subcatchments) == LinesOf(s, Subcatchments) + [line]
    ensures SameOutside(r, s, Subcatchments)
    ensures WellFormed(s) && WellFormedSubcatchment(line) ==> WellFormed(r)
  {
    var r := s[Subcatchments := s[Subcatchments].(lines := s[Subcatchments].lines + [line])];
    if WellFormed(s) && WellFormedSubcatchment(line) then
      assert forall j :: 0 <= j < |LinesOf(r, Subcatchments)| ==>
        LinesOf(r, Subcatchments)[j] == if j < |LinesOf(s, Subcatchments)| then LinesOf(s, Subcatchments)[j] else line;
      WellFormedOutside(r, s, Subcatchments);
      r
    else r
  }

  /** The comment on a generated child subcatchment. */
  function ChildComment(number: nat): string {
    NatToString(number) + " LID units. (Added by OSTRICH-SWMM.)"
  }

  /** A rain barrel's child record: a copy of the host with only Name, Area and %Imperv replaced. */
  function ChildValues(host: seq<Value>, child: string, lidArea: real): seq<Value>
    requires SubcatchmentImperv < |host|
  {
    host[SubcatchmentName := Text(child)][SubcatchmentArea := Decimal(lidArea)][SubcatchmentImperv := Integer(0)]
  }

  /**
   * The area split of the host record at position `h` for a LID of area
   * `lidArea`: write the host's reduced Area and check it, write its
   * recomputed %Imperv and check it, then append the child `child`. A failed
   * check leaves the host record as already written and appends nothing.
   */
  function SplitHost(s: Sections, h: nat, child: string, lidArea: real, number: nat, id: string, base: string): (r: (Sections, Option<Error>))
    requires h < |LinesOf(s, Subcatchments)| && 0 < |LinesOf(s, Subcatchments)[h].values| && WellFormed(s)
    ensures WellFormed(r.0)
    ensures SameOutside(r.0, s, Subcatchments)
    ensures |LinesOf(r.0, Subcatchments)| == |LinesOf(s, Subcatchments)| + (if r.1.None? then 1 else 0)
    ensures r.1.Some? ==> r.1.value in {NegativeArea(id, base), ZeroHostArea(id, base), InsufficientImpervious(id, base)}
  {
    assert WellFormedSubcatchment(LinesOf(s, Subcatchments)[h]);
    var host := LinesOf(s, Subcatchments)[h].values;
    var hostArea := AsReal(host[SubcatchmentArea]);
    var shrunk := host[SubcatchmentArea := Decimal(hostArea - lidArea)];
    var s1 := WithHostValues(s, h, shrunk);
    if hostArea - lidArea < 0.0 then (s1, Some(NegativeArea(id, base)))
    else if hostArea - lidArea == 0.0 then (s1, Some(ZeroHostArea(id, base)))
    else
      var imperv := NewImperviousPercent(AsReal(host[SubcatchmentImperv]), hostArea, lidArea);
      var s2 := WithHostValues(s1, h, shrunk[SubcatchmentImperv := Decimal(imperv)]);
      if imperv < 0.0 then (s2, Some(InsufficientImpervious(id, base)))
      else (AppendSubcatchment(s2, Line(ChildValues(host, child, lidArea), Some(ChildComment(number)))), None)
  }

  /**
   * The rain-barrel branch for LID `i` with instance id `id`: find the host,
   * name the child, convert the LID's area, split the host, and on success
   * move the LID into the child.
   */
  function RainBarrelStep(s: Sections, lids: seq<Lid>, i: nat, id: string, unitSystem: string): (r: (Sections, seq<Lid>, Option<Error>))
    requires i < |lids| && lids[i].location.subcatchment.Some? && WellFormed(s)
    ensures WellFormed(r.0)
    ensures |r.1| == |lids|
    ensures forall j :: 0 <= j < |lids| && j != i ==> r.1[j] == lids[j]
    ensures r.1[i] == lids[i].(location := r.1[i].location)
    ensures r.1[i].location.mapCoords == lids[i].location.mapCoords
    ensures r.1[i].location.subcatchment.Some?
    ensures SameOutside(r.0, s, Subcatchments)
    ensures |LinesOf(r.0, Subcatchments)| == |LinesOf(s, Subcatchments)| + (if r.2.None? then 1 else 0)
  {
    var lid := lids[i];
    var base := lid.location.subcatchment.value;
    match FindSubcatchment(s, base)
    case None => (s, lids, Some(SubcatchmentNotFound(base)))
    case Some(h) =>
      var child := ChildName(SubcatchmentNames(s), base, id);
      match AreaConversion(unitSystem)
      case None => (s, lids, Some(UnknownUnitSystem(unitSystem)))
      case Some(conversion) =>
        var split := SplitHost(s, h, child, TotalLidArea(lid.number, lid.area, conversion), lid.number, id, base);
        if split.1.Some? then (split.0, lids, split.1)
        else (split.0, lids[i := lid.(location := lid.location.(subcatchment := Some(child)))], None)
  }

  /**
   * Resolve LID `i`'s location, then its drain target, against the model's
   * geometry index, writing each resolved subcatchment into the LID entry.
   * When the drain target fails, the resolved location has already been written.
   */
  function ResolvePlacements(s: Sections, lids: seq<Lid>, i: nat, contains: Containment): (r: (seq<Lid>, Option<Error>))
    requires i < |lids| && ValidLid(lids[i]) && WellFormed(s)
    ensures |r.0| == |lids|
    ensures forall j :: 0 <= j < |lids| && j != i ==> r.0[j] == lids[j]
    ensures r.0[i] == lids[i].(location := r.0[i].location, drainTo := r.0[i].drainTo)
    ensures r.1.None? ==> r.0[i].location.subcatchment.Some?
    ensures r.1.Some? ==> r.1.value.PlacementError?
    ensures var index := PolygonsOf(s);
      var location := ResolveLocation(lids[i].location, index, contains);
      var drain := ResolveDrain(lids[i].drainTo, index, contains);
      && (location.Err? ==> r.0 == lids && r.1 == Some(location.error))
      && (location.Ok? ==> r.0[i].location == location.value)
      && (location.Ok? && drain.Err? ==> r.0[i].drainTo == lids[i].drainTo && r.1 == Some(drain.error))
      && (location.Ok? && drain.Ok? ==> r.0[i].drainTo == drain.value && r.1.None?)
  {
    var index := PolygonsOf(s);
    var lid := lids[i];
    match ResolveLocation(lid.location, index, contains)
    case Err(e) => (lids, Some(e))
    case Ok(location) =>
      var located := lid.(location := location);
      match ResolveDrain(lid.drainTo, index, contains)
      case Err(e) => (lids[i := located], Some(e))
      case Ok(drainTo) => (lids[i := located.(drainTo := drainTo)], None)
  }

  /**
   * The part of a step after LID `i` is placed and its control's Type field
   * `code` is known: count its type, issue its id, split its host when it is
   * a rain barrel, and append its LID_USAGE record.
   */
  function CountedStep(st: RunState, i: nat, code: Value, unitSystem: string): (r: (RunState, Option<Error>))
    requires i < |st.lids| && st.lids[i].location.subcatchment.Some? && WellFormed(st.sections)
    ensures WellFormed(r.0.sections)
    ensures |r.0.lids| == |st.lids|
    ensures forall j :: 0 <= j < |st.lids| && j != i ==> r.0.lids[j] == st.lids[j]
    ensures r.0.lids[i] == st.lids[i].(location := r.0.lids[i].location)
    ensures LinesOf(r.0.sections, Polygons) == LinesOf(st.sections, Polygons)
    ensures LinesOf(r.0.sections, LidControls) == LinesOf(st.sections, LidControls)
    ensures var lidType := st.lids[i].lidType;
      var count := CountOf(st.counter, lidType) + 1;
      r.0.ids == st.ids + [LidId(lidType, count)] && r.0.counter == st.counter[lidType := count]
  {
    var lidType := st.lids[i].lidType;
    var count := CountOf(st.counter, lidType) + 1;
    var id := LidId(lidType, count);
    var counter := st.counter[lidType := count];
    var ids := st.ids + [id];
    if code == Text("RB") then
      var split := RainBarrelStep(st.sections, st.lids, i, id, unitSystem);
      GeometryKept(split.0, st.sections, Subcatchments);
      AfterSplit(split, i, counter, ids)
    else
      var sections := AppendUsage(st.sections, UsageRecord(st.lids[i]));
      GeometryKept(sections, st.sections, LidUsage);
      (RunState(sections, st.lids, counter, ids), None)
  }

  /**
   * The end of the rain-barrel branch: a failed split ends the step with its
   * error; a successful one appends the LID's usage record.
   */
  function AfterSplit(split: (Sections, seq<Lid>, Option<Error>), i: nat, counter: map<string, nat>, ids: seq<string>): (r: (RunState, Option<Error>))
    requires i < |split.1| && split.1[i].location.subcatchment.Some? && WellFormed(split.0)
    ensures WellFormed(r.0.sections) && r.0.lids == split.1 && r.1 == split.2
    ensures r.0.counter == counter && r.0.ids == ids
    ensures LinesOf(r.0.sections, Polygons) == LinesOf(split.0, Polygons)
    ensures LinesOf(r.0.sections, LidControls) == LinesOf(split.0, LidControls)
  {
    if split.2.Some? then (RunState(split.0, split.1, counter, ids), split.2)
    else
      var sections := AppendUsage(split.0, UsageRecord(split.1[i]));
      GeometryKept(sections, split.0, LidUsage);
      (RunState(sections, split.1, counter, ids), None)
  }

  /** Changing one section other than POLYGONS and LID_CONTROLS leaves those two as they were. */
  lemma GeometryKept(r: Sections, s: Sections, key: string)
    requires SameOutside(r, s, key) && key != Polygons && key != LidControls
    ensures LinesOf(r, Polygons) == LinesOf(s, Polygons)
    ensures LinesOf(r, LidControls) == LinesOf(s, LidControls)
  {
  }

  /**
   * One iteration of the injector's loop, for LID `i`: resolve its location
   * and drain target, look up its type, then count it, split its host when it
   * is a rain barrel and append its LID_USAGE record. On an error the state is
   * what the source has changed up to the point where it raised.
   */
  function InjectStep(st: RunState, i: nat, unitSystem: string, contains: Containment): (r: (RunState, Option<Error>))
    requires i < |st.lids| && ValidLid(st.lids[i]) && WellFormed(st.sections)
    ensures WellFormed(r.0.sections)
    ensures |r.0.lids| == |st.lids|
    ensures forall j :: 0 <= j < |st.lids| && j != i ==> r.0.lids[j] == st.lids[j]
    ensures r.0.lids[i] == st.lids[i].(location := r.0.lids[i].location, drainTo := r.0.lids[i].drainTo)
    ensures LinesOf(r.0.sections, Polygons) == LinesOf(st.sections, Polygons)
    ensures LinesOf(r.0.sections, LidControls) == LinesOf(st.sections, LidControls)
    ensures var lidType := st.lids[i].lidType;
      var count := CountOf(st.counter, lidType) + 1;
      || (r.1.Some? && r.0.ids == st.ids && r.0.counter == st.counter)
      || (r.0.ids == st.ids + [LidId(lidType, count)] && r.0.counter == st.counter[lidType := count])
  {
    var placement := ResolvePlacements(st.sections, st.lids, i, contains);
    var placed := st.(lids := placement.0);
    if placement.1.Some? then (placed, placement.1)
    else
      match LidTypeCode(st.sections, st.lids[i].lidType)
      case Err(e) => (placed, Some(e))
      case Ok(code) =>
        PlacedThenCounted(st, placement.0, i, code, unitSystem);
        CountedStep(placed, i, code, unitSystem)
  }

  /**
   * A step is its placement, then its type lookup, then the counted part;
   * a failure of either lookup ends it with the placement written.
   */
  lemma InjectStepIsCounted(st: RunState, i: nat, unitSystem: string, contains: Containment)
    requires i < |st.lids| && ValidLid(st.lids[i]) && WellFormed(st.sections)
    ensures var placement := ResolvePlacements(st.sections, st.lids, i, contains);
      var placed := st.(lids := placement.0);
      var code := LidTypeCode(st.sections, st.lids[i].lidType);
      var r := InjectStep(st, i, unitSystem, contains);
      && (placement.1.Some? ==> r == (placed, placement.1))
      && (placement.1.None? && code.Err? ==> r == (placed, Some(code.error)))
      && (placement.1.None? && code.Ok? ==>
            placed.lids[i].lidType == st.lids[i].lidType && r == CountedStep(placed, i, code.value, unitSystem))
  {
  }

  /**
   * What a step for LID `i` does to the LID list and the id bookkeeping: only
   * LID `i`'s placements change, and either nothing is counted (on a failure)
   * or its type is counted and the next id issued.
   */
  ghost predicate StepShape(st: RunState, i: nat, r: (RunState, Option<Error>))
    requires i < |st.lids|
  {
    && |r.0.lids| == |st.lids|
    && (forall j :: 0 <= j < |st.lids| && j != i ==> r.0.lids[j] == st.lids[j])
    && r.0.lids[i] == st.lids[i].(location := r.0.lids[i].location, drainTo := r.0.lids[i].drainTo)
    && var lidType := st.lids[i].lidType;
       var count := CountOf(st.counter, lidType) + 1;
       || (r.1.Some? && r.0.ids == st.ids && r.0.counter == st.counter)
       || (r.0.ids == st.ids + [LidId(lidType, count)] && r.0.counter == st.counter[lidType := count])
  }

  lemma InjectStepShape(st: RunState, i: nat, unitSystem: string, contains: Containment)
    requires i < |st.lids| && ValidLid(st.lids[i]) && WellFormed(st.sections)
    ensures StepShape(st, i, InjectStep(st, i, unitSystem, contains))
  {
  }

  /** The counted part after a successful placement keeps what a step promises about the state. */
  lemma PlacedThenCounted(st: RunState, lids: seq<Lid>, i: nat, code: Value, unitSystem: string)
    requires i < |st.lids| && WellFormed(st.sections)
    requires |lids| == |st.lids| && lids[i].location.subcatchment.Some?
    requires forall j :: 0 <= j < |st.lids| && j != i ==> lids[j] == st.lids[j]
    requires lids[i] == st.lids[i].(location := lids[i].location, drainTo := lids[i].drainTo)
    ensures var r := CountedStep(st.(lids := lids), i, code, unitSystem);
      var lidType := st.lids[i].lidType;
      var count := CountOf(st.counter, lidType) + 1;
      && |r.0.lids| == |st.lids|
      && (forall j :: 0 <= j < |st.lids| && j != i ==> r.0.lids[j] == st.lids[j])
      && r.0.lids[i] == st.lids[i].(location := r.0.lids[i].location, drainTo := r.0.lids[i].drainTo)
      && r.0.ids == st.ids + [LidId(lidType, count)] && r.0.counter == st.counter[lidType := count]
  {
    assert st.(lids := lids).lids[i].lidType == st.lids[i].lidType;
  }

  /** The run may continue from LID `i`. */
  predicate RunReady(st: RunState, i: nat) {
    i <= |st.lids| && WellFormed(st.sections) && forall j :: i <= j < |st.lids| ==> ValidLid(st.lids[j])
  }

  /** The rest of a run from LID `i`: stop at the first error, which the source raises to its caller. */
  function RunFrom(st: RunState, i: nat, unitSystem: string, contains: Containment): (RunState, Option<Error>)
    requires RunReady(st, i)
    decreases |st.lids| - i, 1
  {
    if i == |st.lids| then (st, None) else RunStep(st, i, unitSystem, contains)
  }

  /** LID `i`'s step, then, when it succeeds, the rest of the run from LID `i + 1`. */
  function RunStep(st: RunState, i: nat, unitSystem: string, contains: Containment): (RunState, Option<Error>)
    requires RunReady(st, i) && i < |st.lids|
    decreases |st.lids| - i, 0
  {
    var step := InjectStep(st, i, unitSystem, contains);
    if step.1.Some? then step else RunFrom(step.0, i + 1, unitSystem, contains)
  }

  /** The rest of a run from LID `i` is its step, then, when that succeeds, the rest from LID `i + 1`. */
  lemma RunFromNext(st: RunState, i: nat, unitSystem: string, contains: Containment)
    requires RunReady(st, i) && i < |st.lids|
    ensures var step := InjectStep(st, i, unitSystem, contains);
      && (step.1.Some? ==> RunFrom(st, i, unitSystem, contains) == step)
      && (step.1.None? ==> RunReady(step.0, i + 1) && RunFrom(st, i, unitSystem, contains) == RunFrom(step.0, i + 1, unitSystem, contains))
  {
  }

  /** A whole run: fresh counters, no ids issued yet. */
  function Run(s: Sections, lids: seq<Lid>, unitSystem: string, contains: Containment): (RunState, Option<Error>)
    requires WellFormed(s) && forall j :: 0 <= j < |lids| ==> ValidLid(lids[j])
  {
    RunFrom(RunState(s, lids, map[], []), 0, unitSystem, contains)
  }
}
