/**
 * The injector as the source runs it: a loop over the parameter document's
 * LIDs that edits the SWMM input model and the LID entries in place, keeping
 * a per-type counter and a lazily built geometry index. Each method is
 * proved to do what module InjectionSpec says.
 */
module Injector {
  import opened Wrappers
  import opened SwmmInput
  import opened Parameters
  import opened ZoneLookup
  import opened Geometry
  import opened Identifiers
  import opened ZoneSplit
  import opened InjectionSpec

  /** The LID gives its location or its drain target in map coordinates, so placing it needs the geometry index. */
  predicate NeedsGeometry(lid: Lid) {
    lid.location.mapCoords.Some? || (lid.drainTo.Some? && lid.drainTo.value.mapCoords.Some?)
  }

  /**
   * Resolve LID `i`'s placements given in map coordinates, building the
   * geometry index the first time one is needed and reusing it after that.
   */
  method ResolveLidPlacements(parameters: InputParameters, s: Sections, i: nat, polygons: Option<PolygonIndex>, contains: Containment)
    returns (newPolygons: Option<PolygonIndex>, error: Option<Error>)
    requires i < |parameters.lids| && ValidLid(parameters.lids[i]) && WellFormed(s)
    requires polygons.Some? ==> polygons.value == PolygonsOf(s)
    modifies parameters
    ensures ResolvePlacements(s, old(parameters.lids), i, contains) == (parameters.lids, error)
    ensures newPolygons.Some? ==> newPolygons.value == PolygonsOf(s)
    ensures polygons.Some? ==> newPolygons == polygons
    ensures newPolygons.Some? <==> polygons.Some? || NeedsGeometry(old(parameters.lids)[i])
  {
    newPolygons, error := polygons, None;
    var lid := parameters.lids[i];

    // A location given in map coordinates becomes the subcatchment containing it.
    if lid.location.mapCoords.Some? {
      if newPolygons.None? {
        var index := ExtractSubcatchmentPolygons(s);
        newPolygons := Some(index);
      }
      var found := SubcatchmentFromMapCoords(lid.location.mapCoords.value, newPolygons.value, contains);
      if found.Err? {
        error := Some(found.error);
        return;
      }
      lid := lid.(location := lid.location.(subcatchment := Some(found.value)));
      parameters.lids := parameters.lids[i := lid];
    }
    assert parameters.lids == old(parameters.lids)[i := lid];

    // So does a drain target given in map coordinates.
    if lid.drainTo.Some? && lid.drainTo.value.mapCoords.Some? {
      if newPolygons.None? {
        var index := ExtractSubcatchmentPolygons(s);
        newPolygons := Some(index);
      }
      var found := SubcatchmentFromMapCoords(lid.drainTo.value.mapCoords.value, newPolygons.value, contains);
      if found.Err? {
        error := Some(found.error);
        return;
      }
      lid := lid.(drainTo := Some(lid.drainTo.value.(subcatchment := Some(found.value))));
      parameters.lids := parameters.lids[i := lid];
    }
    assert parameters.lids == old(parameters.lids)[i := lid];
  }

  /**
   * Split the host record at position `h` in place: write its reduced Area and
   * check it, write its recomputed %Imperv and check it, then append the child
   * `child`, a copy of the host with its own Name, Area and %Imperv.
   */
  method SplitHostInPlace(input: SwmmModel, h: nat, child: string, lidArea: real, number: nat, id: string, base: string)
    returns (error: Option<Error>)
    requires h < |LinesOf(input.sections, Subcatchments)| && 0 < |LinesOf(input.sections, Subcatchments)[h].values|
    requires WellFormed(input.sections)
    modifies input
    ensures SplitHost(old(input.sections), h, child, lidArea, number, id, base) == (input.sections, error)
  {
    error := None;
    // The child starts as a copy of the host; the host is edited in place.
    var host := input.sections[Subcatchments].lines[h].values;
    assert host == LinesOf(input.sections, Subcatchments)[h].values;
    assert WellFormedSubcatchment(LinesOf(input.sections, Subcatchments)[h]);
    var childValues := host[SubcatchmentName := Text(child)];
    var hostArea := AsReal(host[SubcatchmentArea]);
    childValues := childValues[SubcatchmentArea := Decimal(lidArea)];
    var hostValues := host[SubcatchmentArea := Decimal(hostArea - lidArea)];
    input.sections := WithHostValues(input.sections, h, hostValues);
    if hostArea - lidArea < 0.0 {
      error := Some(NegativeArea(id, base));
      return;
    }
    if hostArea - lidArea == 0.0 {
      error := Some(ZeroHostArea(id, base));
      return;
    }

    var imperv := NewImperviousPercent(AsReal(host[SubcatchmentImperv]), hostArea, lidArea);
    childValues := childValues[SubcatchmentImperv := Integer(0)];
    hostValues := hostValues[SubcatchmentImperv := Decimal(imperv)];
    input.sections := WithHostValues(input.sections, h, hostValues);
    if imperv < 0.0 {
      error := Some(InsufficientImpervious(id, base));
      return;
    }

    input.sections := AppendSubcatchment(input.sections, Line(childValues, Some(ChildComment(number))));
    assert childValues == ChildValues(host, child, lidArea);
  }

  /**
   * The rain-barrel branch for LID `i` with instance id `id`: split the host
   * subcatchment, append the child record and move the LID into it.
   */
  method SplitRainBarrel(parameters: InputParameters, input: SwmmModel, i: nat, id: string, unitSystem: string)
    returns (error: Option<Error>)
    requires i < |parameters.lids| && parameters.lids[i].location.subcatchment.Some? && WellFormed(input.sections)
    modifies parameters, input
    ensures RainBarrelStep(old(input.sections), old(parameters.lids), i, id, unitSystem) == (input.sections, parameters.lids, error)
  {
    error := None;
    var lid := parameters.lids[i];
    var base := lid.location.subcatchment.value;
    var h := FindSubcatchment(input.sections, base);
    if h.None? {
      error := Some(SubcatchmentNotFound(base));
      return;
    }
    var child, _ := UniqueChildName(input.sections, base, id);
    var conversion := AreaConversion(unitSystem);
    if conversion.None? {
      error := Some(UnknownUnitSystem(unitSystem));
      return;
    }

    var lidArea := TotalLidArea(lid.number, lid.area, conversion.value);
    error := SplitHostInPlace(input, h.value, child, lidArea, lid.number, id, base);
    if error.Some? {
      return;
    }
    lid := lid.(location := lid.location.(subcatchment := Some(child)));
    parameters.lids := parameters.lids[i := lid];
  }

  /**
   * The body of the source's loop for LID `i`. `polygons` is the geometry
   * index if an earlier LID already needed it; `ids` records the instance
   * ids issued so far and exists only for the proof.
   */
  method InjectLid(
    parameters: InputParameters, input: SwmmModel, i: nat,
    counter: map<string, nat>, polygons: Option<PolygonIndex>, ghost ids: seq<string>,
    unitSystem: string, contains: Containment)
    returns (newCounter: map<string, nat>, newPolygons: Option<PolygonIndex>, ghost newIds: seq<string>, error: Option<Error>)
    requires i < |parameters.lids| && ValidLid(parameters.lids[i]) && WellFormed(input.sections)
    requires polygons.Some? ==> polygons.value == PolygonsOf(input.sections)
    modifies parameters, input
    ensures InjectStep(RunState(old(input.sections), old(parameters.lids), counter, ids), i, unitSystem, contains)
         == (RunState(input.sections, parameters.lids, newCounter, newIds), error)
    ensures newPolygons.Some? ==> newPolygons.value == PolygonsOf(input.sections)
    ensures polygons.Some? ==> newPolygons == polygons
    ensures newPolygons.Some? <==> polygons.Some? || NeedsGeometry(old(parameters.lids)[i])
  {
    newCounter, newIds := counter, ids;
    InjectStepIsCounted(RunState(input.sections, parameters.lids, counter, ids), i, unitSystem, contains);
    ghost var needed := NeedsGeometry(parameters.lids[i]);
    newPolygons, error := ResolveLidPlacements(parameters, input.sections, i, polygons, contains);
    assert newPolygons.Some? <==> polygons.Some? || needed;
    if error.Some? {
      return;
    }

    // The LID's type must be a defined LID control.
    var lid := parameters.lids[i];
    var code := LidTypeCode(input.sections, lid.lidType);
    if code.Err? {
      error := Some(code.error);
      return;
    }

    // Count this instance of its type and give it an id.
    var count := CountOf(counter, lid.lidType) + 1;
    newCounter := counter[lid.lidType := count];
    var id := LidId(lid.lidType, count);
    newIds := ids + [id];

    if code.value == Text("RB") {
      error := SplitRainBarrel(parameters, input, i, id, unitSystem);
      if error.Some? {
        return;
      }
    }

    // Record the LID's usage.
    input.sections := AppendUsage(input.sections, UsageRecord(parameters.lids[i]));
  }

  /**
   * Inject every LID of the parameter document into the input model, in
   * document order, stopping at the first error. `unitSystem` is the model's
   * unit system tag; `contains` is the geometry library's containment test.
   */
  method InjectParametersIntoInput(parameters: InputParameters, input: SwmmModel, unitSystem: string, contains: Containment)
    returns (error: Option<Error>)
    requires WellFormed(input.sections)
    requires forall j :: 0 <= j < |parameters.lids| ==> ValidLid(parameters.lids[j])
    modifies parameters, input
    ensures var run := Run(old(input.sections), old(parameters.lids), unitSystem, contains);
      var final, failure := run.0, run.1;
      input.sections == final.sections && parameters.lids == final.lids && error == failure
  {
    var counter: map<string, nat> := map[];
    ghost var ids: seq<string> := [];
    var polygons: Option<PolygonIndex> := None;
    error := None;
    var i := 0;
    while i < |parameters.lids|
      invariant RunReady(RunState(input.sections, parameters.lids, counter, ids), i)
      invariant RunFrom(RunState(input.sections, parameters.lids, counter, ids), i, unitSystem, contains)
             == Run(old(input.sections), old(parameters.lids), unitSystem, contains)
      invariant polygons.Some? ==> polygons.value == PolygonsOf(input.sections)
      decreases |parameters.lids| - i
    {
      RunFromNext(RunState(input.sections, parameters.lids, counter, ids), i, unitSystem, contains);
      var e;
      counter, polygons, ids, e := InjectLid(parameters, input, i, counter, polygons, ids, unitSystem, contains);
      if e.Some? {
        error := e;
        return;
      }
      i := i + 1;
    }
  }
}
