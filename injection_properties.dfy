/**
 * What an injection guarantees, proved about the functions of InjectionSpec
 * (and so, through the injector's postconditions, about the injector):
 * when a rain barrel's split fails and what a successful split writes, what
 * one LID's step appends, and what a whole run issues and records.
 */
module InjectionProperties {
  import opened Wrappers
  import opened Format
  import opened SwmmInput
  import opened Parameters
  import opened ZoneLookup
  import opened Geometry
  import opened Identifiers
  import opened ZoneSplit
  import opened InjectionSpec

  /** The record of the subcatchment a lookup by `base` finds. */
  function HostRecord(s: Sections, base: string): (r: seq<Value>)
    requires WellFormed(s) && base in SubcatchmentNames(s)
    ensures SubcatchmentImperv < |r| && IsNumber(r[SubcatchmentArea]) && IsNumber(r[SubcatchmentImperv])
    ensures r[SubcatchmentName] == Text(base)
  {
    var h := FindSubcatchment(s, base).value;
    assert WellFormedSubcatchment(LinesOf(s, Subcatchments)[h]);
    LinesOf(s, Subcatchments)[h].values
  }

  /** The LID's total area in the model's subcatchment area unit. */
  function LidArea(lid: Lid, unitSystem: string): real
    requires AreaConversion(unitSystem).Some?
  {
    TotalLidArea(lid.number, lid.area, AreaConversion(unitSystem).value)
  }

  /** The host record at position `h` is a well-formed subcatchment record. */
  lemma HostWellFormed(s: Sections, h: nat)
    requires h < |LinesOf(s, Subcatchments)| && WellFormed(s)
    ensures WellFormedSubcatchment(LinesOf(s, Subcatchments)[h])
  {
  }

  /**
   * The area checks of a split of the record `host` for a LID of area
   * `lidArea`: the LID larger than the host, exactly as large (the source
   * divides by zero), larger than its impervious land, or none of these, each
   * under exactly its condition.
   */
  predicate AreaChecks(failure: Option<Error>, host: seq<Value>, lidArea: real, id: string, base: string)
    requires SubcatchmentImperv < |host| && IsNumber(host[SubcatchmentArea]) && IsNumber(host[SubcatchmentImperv])
  {
    var hostArea := AsReal(host[SubcatchmentArea]);
    var imperviousArea := AsReal(host[SubcatchmentImperv]) / 100.0 * hostArea;
    && (failure == Some(NegativeArea(id, base)) <==> hostArea < lidArea)
    && (failure == Some(ZeroHostArea(id, base)) <==> hostArea == lidArea)
    && (failure == Some(InsufficientImpervious(id, base)) <==> lidArea < hostArea && imperviousArea < lidArea)
    && (failure.None? <==> lidArea < hostArea && lidArea <= imperviousArea)
  }

  /** A split fails, or not, as the area checks on its host record say. */
  lemma SplitHostOutcome(s: Sections, h: nat, child: string, lidArea: real, number: nat, id: string, base: string)
    requires h < |LinesOf(s, Subcatchments)| && 0 < |LinesOf(s, Subcatchments)[h].values| && WellFormed(s)
    ensures WellFormedSubcatchment(LinesOf(s, Subcatchments)[h])
    ensures AreaChecks(SplitHost(s, h, child, lidArea, number, id, base).1, LinesOf(s, Subcatchments)[h].values, lidArea, id, base)
  {
    HostWellFormed(s, h);
    var host := LinesOf(s, Subcatchments)[h].values;
    var hostArea := AsReal(host[SubcatchmentArea]);
    if lidArea < hostArea {
      NewImperviousNegativeIff(AsReal(host[SubcatchmentImperv]), hostArea, lidArea);
    }
  }

  /**
   * `after` is `before` with the host record `h` given the Area and %Imperv
   * left after a split for a LID of area `lidArea`, every other record kept,
   * and the child record `child` appended.
   */
  predicate SplitRecords(before: seq<Line>, after: seq<Line>, h: nat, child: string, lidArea: real, number: nat) {
    && h < |before| && WellFormedSubcatchment(before[h]) && 0 < |before[h].values|
    && |after| == |before| + 1
    && (forall j :: 0 <= j < |before| && j != h ==> after[j] == before[j])
    && after[h].comment == before[h].comment
    && var host := before[h].values;
       var hostArea := AsReal(host[SubcatchmentArea]);
       && lidArea < hostArea
       && after[h].values == host[SubcatchmentArea := Decimal(hostArea - lidArea)]
            [SubcatchmentImperv := Decimal(NewImperviousPercent(AsReal(host[SubcatchmentImperv]), hostArea, lidArea))]
       && after[|before|] == Line(ChildValues(host, child, lidArea), Some(ChildComment(number)))
  }

  /** A successful split rewrites the host's Area and %Imperv, keeps every other record and appends the child. */
  lemma SplitHostRecords(s: Sections, h: nat, child: string, lidArea: real, number: nat, id: string, base: string)
    requires h < |LinesOf(s, Subcatchments)| && 0 < |LinesOf(s, Subcatchments)[h].values| && WellFormed(s)
    requires SplitHost(s, h, child, lidArea, number, id, base).1.None?
    ensures WellFormedSubcatchment(LinesOf(s, Subcatchments)[h])
    ensures SplitRecords(LinesOf(s, Subcatchments), LinesOf(SplitHost(s, h, child, lidArea, number, id, base).0, Subcatchments),
                         h, child, lidArea, number)
  {
    HostWellFormed(s, h);
  }

  /**
   * In a split the host keeps every field but Area and %Imperv, and the child
   * copies the host in every field but Name, Area (the LID's) and %Imperv (0).
   */
  lemma SplitRecordsFields(before: seq<Line>, after: seq<Line>, h: nat, child: string, lidArea: real, number: nat)
    requires SplitRecords(before, after, h, child, lidArea, number)
    ensures |after[h].values| == |before[h].values| == |after[|before|].values|
    ensures forall f :: 0 <= f < |before[h].values| && f != SubcatchmentArea && f != SubcatchmentImperv ==>
      after[h].values[f] == before[h].values[f]
    ensures forall f :: 0 <= f < |before[h].values| && f != SubcatchmentName && f != SubcatchmentArea && f != SubcatchmentImperv ==>
      after[|before|].values[f] == before[h].values[f]
    ensures after[|before|].values[SubcatchmentName] == Text(child)
    ensures after[|before|].values[SubcatchmentArea] == Decimal(lidArea)
    ensures after[|before|].values[SubcatchmentImperv] == Integer(0)
    ensures after[|before|].comment == Some(ChildComment(number))
  {
  }

  /**
   * `shrunk` and `child` split the host record `host`: their areas add up to
   * the host's, the host keeps a positive area, the impervious area is
   * conserved (the child's area was impervious land), and the host's %Imperv
   * stays non-negative and, for a non-negative child area and a %Imperv of at
   * most 100, no higher than before.
   */
  predicate ConservingSplit(host: seq<Value>, shrunk: seq<Value>, child: seq<Value>) {
    && SubcatchmentImperv < |host| && SubcatchmentImperv < |shrunk| && SubcatchmentImperv < |child|
    && IsNumber(host[SubcatchmentArea]) && IsNumber(host[SubcatchmentImperv]) && IsNumber(child[SubcatchmentArea])
    && shrunk[SubcatchmentArea].Decimal? && shrunk[SubcatchmentImperv].Decimal?
    && var oldArea, oldImperv := AsReal(host[SubcatchmentArea]), AsReal(host[SubcatchmentImperv]);
       var newArea, newImperv := shrunk[SubcatchmentArea].magnitude, shrunk[SubcatchmentImperv].magnitude;
       var lidArea := AsReal(child[SubcatchmentArea]);
       && newArea + lidArea == oldArea
       && 0.0 < newArea
       && newImperv / 100.0 * newArea + lidArea == oldImperv / 100.0 * oldArea
       && 0.0 <= newImperv
       && (0.0 <= lidArea && oldImperv <= 100.0 ==> newImperv <= oldImperv)
  }

  /** A successful split of the `h`-th record splits it conservingly into the host and the appended child. */
  lemma SplitHostConservation(s: Sections, h: nat, child: string, lidArea: real, number: nat, id: string, base: string)
    requires h < |LinesOf(s, Subcatchments)| && 0 < |LinesOf(s, Subcatchments)[h].values| && WellFormed(s)
    requires SplitHost(s, h, child, lidArea, number, id, base).1.None?
    ensures var before := LinesOf(s, Subcatchments);
      var after := LinesOf(SplitHost(s, h, child, lidArea, number, id, base).0, Subcatchments);
      && |after| == |before| + 1 && ConservingSplit(before[h].values, after[h].values, after[|before|].values)
      && after[|before|].values[SubcatchmentArea] == Decimal(lidArea)
  {
    SplitHostOutcome(s, h, child, lidArea, number, id, base);
    SplitHostRecords(s, h, child, lidArea, number, id, base);
    var host := LinesOf(s, Subcatchments)[h].values;
    var hostArea := AsReal(host[SubcatchmentArea]);
    var imperv := AsReal(host[SubcatchmentImperv]);
    ImperviousAreaConserved(imperv, hostArea, lidArea);
    if 0.0 <= lidArea && imperv <= 100.0 {
      NewImperviousBounds(imperv, hostArea, lidArea);
    }
  }

  /** Changing only Area and %Imperv of the `h`-th record keeps every record's name. */
  lemma HostValuesKeepNames(s: Sections, h: nat, values: seq<Value>)
    requires h < |LinesOf(s, Subcatchments)|
    requires |values| == |LinesOf(s, Subcatchments)[h].values| && SubcatchmentName < |values|
    requires values[SubcatchmentName] == LinesOf(s, Subcatchments)[h].values[SubcatchmentName]
    ensures forall j :: 0 <= j < |LinesOf(s, Subcatchments)| ==>
      NameOf(LinesOf(WithHostValues(s, h, values), Subcatchments)[j]) == NameOf(LinesOf(s, Subcatchments)[j])
  {
  }

  /** Records that keep their names keep the name set, and its uniqueness. */
  lemma NamesOfSameLength(s: Sections, r: Sections)
    requires |LinesOf(r, Subcatchments)| == |LinesOf(s, Subcatchments)|
    requires forall j :: 0 <= j < |LinesOf(s, Subcatchments)| ==>
      NameOf(LinesOf(r, Subcatchments)[j]) == NameOf(LinesOf(s, Subcatchments)[j])
    ensures SubcatchmentNames(r) == SubcatchmentNames(s)
    ensures UniqueNames(LinesOf(s, Subcatchments)) ==> UniqueNames(LinesOf(r, Subcatchments))
  {
    var before, after := LinesOf(s, Subcatchments), LinesOf(r, Subcatchments);
    forall name | name in SubcatchmentNames(r) ensures name in SubcatchmentNames(s) {
      var j :| 0 <= j < |after| && NameOf(after[j]) == Some(name);
      assert before[j] in before;
    }
    forall name | name in SubcatchmentNames(s) ensures name in SubcatchmentNames(r) {
      var j :| 0 <= j < |before| && NameOf(before[j]) == Some(name);
      assert after[j] in after;
    }
  }

  /** Records that keep their names, plus one record with a new name `child`. */
  lemma NamesOfExtension(s: Sections, r: Sections, child: string)
    requires |LinesOf(r, Subcatchments)| == |LinesOf(s, Subcatchments)| + 1
    requires forall j :: 0 <= j < |LinesOf(s, Subcatchments)| ==>
      NameOf(LinesOf(r, Subcatchments)[j]) == NameOf(LinesOf(s, Subcatchments)[j])
    requires NameOf(LinesOf(r, Subcatchments)[|LinesOf(s, Subcatchments)|]) == Some(child)
    requires child !in SubcatchmentNames(s)
    ensures SubcatchmentNames(r) == SubcatchmentNames(s) + {child}
    ensures UniqueNames(LinesOf(s, Subcatchments)) ==> UniqueNames(LinesOf(r, Subcatchments))
  {
    var before, after := LinesOf(s, Subcatchments), LinesOf(r, Subcatchments);
    forall name | name in SubcatchmentNames(r) ensures name in SubcatchmentNames(s) + {child} {
      var j :| 0 <= j < |after| && NameOf(after[j]) == Some(name);
      if j < |before| {
        assert before[j] in before;
      }
    }
    forall name | name in SubcatchmentNames(s) ensures name in SubcatchmentNames(r) {
      var j :| 0 <= j < |before| && NameOf(before[j]) == Some(name);
      assert after[j] in after;
    }
    assert after[|before|] in after;
    forall j | 0 <= j < |before| && NameOf(before[j]).Some? ensures NameOf(after[j]) != Some(child) {
      assert before[j] in before;
    }
  }

  /** A split renames no record; a successful one adds a record named `child`. */
  lemma SplitHostNames(s: Sections, h: nat, child: string, lidArea: real, number: nat, id: string, base: string)
    requires h < |LinesOf(s, Subcatchments)| && 0 < |LinesOf(s, Subcatchments)[h].values| && WellFormed(s)
    ensures var r := SplitHost(s, h, child, lidArea, number, id, base);
      var before := LinesOf(s, Subcatchments);
      var after := LinesOf(r.0, Subcatchments);
      && (forall j :: 0 <= j < |before| ==> NameOf(after[j]) == NameOf(before[j]))
      && (r.1.None? ==> NameOf(after[|before|]) == Some(child))
  {
    var r := SplitHost(s, h, child, lidArea, number, id, base);
    var before, after := LinesOf(s, Subcatchments), LinesOf(r.0, Subcatchments);
    if r.1.None? {
      SplitHostRecords(s, h, child, lidArea, number, id, base);
      SplitRecordsFields(before, after, h, child, lidArea, number);
    } else {
      HostWellFormed(s, h);
      var host := before[h].values;
      var hostArea := AsReal(host[SubcatchmentArea]);
      var shrunk := host[SubcatchmentArea := Decimal(hostArea - lidArea)];
      HostValuesKeepNames(s, h, shrunk);
      if hostArea - lidArea > 0.0 {
        var imperv := NewImperviousPercent(AsReal(host[SubcatchmentImperv]), hostArea, lidArea);
        HostValuesKeepNames(WithHostValues(s, h, shrunk), h, shrunk[SubcatchmentImperv := Decimal(imperv)]);
      }
    }
  }

  /** A split with a free child name keeps the name set, or adds just the child; unique names stay unique. */
  lemma SplitHostNameSet(s: Sections, h: nat, child: string, lidArea: real, number: nat, id: string, base: string)
    requires h < |LinesOf(s, Subcatchments)| && 0 < |LinesOf(s, Subcatchments)[h].values| && WellFormed(s)
    requires child !in SubcatchmentNames(s)
    ensures var r := SplitHost(s, h, child, lidArea, number, id, base);
      && (r.1.Some? ==> SubcatchmentNames(r.0) == SubcatchmentNames(s))
      && (r.1.None? ==> SubcatchmentNames(r.0) == SubcatchmentNames(s) + {child})
      && (UniqueNames(LinesOf(s, Subcatchments)) ==> UniqueNames(LinesOf(r.0, Subcatchments)))
  {
    var r := SplitHost(s, h, child, lidArea, number, id, base);
    SplitHostNames(s, h, child, lidArea, number, id, base);
    if r.1.None? {
      NamesOfExtension(s, r.0, child);
    } else {
      NamesOfSameLength(s, r.0);
    }
  }

  /**
   * The rain-barrel branch is a lookup of the host, then the split of the
   * host record under the child's name and the LID's converted area.
   */
  lemma RainBarrelIsSplit(s: Sections, lids: seq<Lid>, i: nat, id: string, unitSystem: string)
    requires i < |lids| && lids[i].location.subcatchment.Some? && WellFormed(s)
    ensures var base := lids[i].location.subcatchment.value;
      var r := RainBarrelStep(s, lids, i, id, unitSystem);
      && (base !in SubcatchmentNames(s) ==> r == (s, lids, Some(SubcatchmentNotFound(base))))
      && (base in SubcatchmentNames(s) && AreaConversion(unitSystem).None? ==>
            r == (s, lids, Some(UnknownUnitSystem(unitSystem))))
      && (base in SubcatchmentNames(s) && AreaConversion(unitSystem).Some? ==>
            var h := FindSubcatchment(s, base).value;
            var child := ChildName(SubcatchmentNames(s), base, id);
            var split := SplitHost(s, h, child, LidArea(lids[i], unitSystem), lids[i].number, id, base);
            && HostRecord(s, base) == LinesOf(s, Subcatchments)[h].values
            && r.0 == split.0 && r.2 == split.1
            && r.1 == if split.1.None? then lids[i := lids[i].(location := lids[i].location.(subcatchment := Some(child)))] else lids)
  {
  }

  /**
   * A rain barrel's split fails for want of a host exactly when no record
   * carries the LID's subcatchment name, and for want of an area conversion
   * exactly when the host exists and the unit system is neither US nor SI.
   */
  lemma RainBarrelLookupOutcome(s: Sections, lids: seq<Lid>, i: nat, id: string, unitSystem: string)
    requires i < |lids| && lids[i].location.subcatchment.Some? && WellFormed(s)
    ensures var base := lids[i].location.subcatchment.value;
      var failure := RainBarrelStep(s, lids, i, id, unitSystem).2;
      && (failure == Some(SubcatchmentNotFound(base)) <==> base !in SubcatchmentNames(s))
      && (failure == Some(UnknownUnitSystem(unitSystem)) <==>
            base in SubcatchmentNames(s) && unitSystem != "US" && unitSystem != "SI")
  {
    RainBarrelIsSplit(s, lids, i, id, unitSystem);
  }

  /**
   * Once the host and the conversion are found, the split fails with exactly
   * one of three errors, each under exactly its condition, as the area checks
   * on the host record say; otherwise it succeeds.
   */
  lemma RainBarrelAreaOutcome(s: Sections, lids: seq<Lid>, i: nat, id: string, unitSystem: string)
    requires i < |lids| && lids[i].location.subcatchment.Some? && WellFormed(s)
    requires lids[i].location.subcatchment.value in SubcatchmentNames(s) && AreaConversion(unitSystem).Some?
    ensures var base := lids[i].location.subcatchment.value;
      AreaChecks(RainBarrelStep(s, lids, i, id, unitSystem).2, HostRecord(s, base), LidArea(lids[i], unitSystem), id, base)
  {
    var base := lids[i].location.subcatchment.value;
    RainBarrelIsSplit(s, lids, i, id, unitSystem);
    var h := FindSubcatchment(s, base).value;
    var child := ChildName(SubcatchmentNames(s), base, id);
    SplitHostOutcome(s, h, child, LidArea(lids[i], unitSystem), lids[i].number, id, base);
  }

  /**
   * A successful rain-barrel split rewrites the host's Area and %Imperv,
   * leaves every other record alone and appends the child, whose name was
   * free; the LID now sits in the child.
   */
  lemma RainBarrelRecords(s: Sections, lids: seq<Lid>, i: nat, id: string, unitSystem: string)
    requires i < |lids| && lids[i].location.subcatchment.Some? && WellFormed(s)
    requires RainBarrelStep(s, lids, i, id, unitSystem).2.None?
    ensures var base := lids[i].location.subcatchment.value;
      base in SubcatchmentNames(s) && AreaConversion(unitSystem).Some?
    ensures var base := lids[i].location.subcatchment.value;
      var r := RainBarrelStep(s, lids, i, id, unitSystem);
      var h := FindSubcatchment(s, base).value;
      var child := ChildName(SubcatchmentNames(s), base, id);
      && SplitRecords(LinesOf(s, Subcatchments), LinesOf(r.0, Subcatchments), h, child, LidArea(lids[i], unitSystem), lids[i].number)
      && LinesOf(s, Subcatchments)[h].values == HostRecord(s, base)
      && child !in SubcatchmentNames(s)
      && r.1 == lids[i := lids[i].(location := lids[i].location.(subcatchment := Some(child)))]
  {
    var base := lids[i].location.subcatchment.value;
    RainBarrelIsSplit(s, lids, i, id, unitSystem);
    var h := FindSubcatchment(s, base).value;
    var child := ChildName(SubcatchmentNames(s), base, id);
    SplitHostRecords(s, h, child, LidArea(lids[i], unitSystem), lids[i].number, id, base);
  }

  /**
   * A successful split conserves area (host plus child is the old host) and
   * impervious area (the child's area was impervious land), leaves the host
   * positive, and keeps its %Imperv non-negative and, for a non-negative LID
   * area and an old %Imperv of at most 100, no higher than before. The child's
   * area is the LID's converted area, non-negative for a non-negative unit area.
   */
  lemma RainBarrelConservation(s: Sections, lids: seq<Lid>, i: nat, id: string, unitSystem: string)
    requires i < |lids| && lids[i].location.subcatchment.Some? && WellFormed(s)
    requires RainBarrelStep(s, lids, i, id, unitSystem).2.None?
    ensures var base := lids[i].location.subcatchment.value;
      var before := LinesOf(s, Subcatchments);
      var after := LinesOf(RainBarrelStep(s, lids, i, id, unitSystem).0, Subcatchments);
      && base in SubcatchmentNames(s)
      && AreaConversion(unitSystem).Some?
      && var h := FindSubcatchment(s, base).value;
         && |after| == |before| + 1 && ConservingSplit(before[h].values, after[h].values, after[|before|].values)
         && after[|before|].values[SubcatchmentArea] == Decimal(LidArea(lids[i], unitSystem))
         && (0.0 <= lids[i].area ==> 0.0 <= LidArea(lids[i], unitSystem))
  {
    var base := lids[i].location.subcatchment.value;
    RainBarrelIsSplit(s, lids, i, id, unitSystem);
    var h := FindSubcatchment(s, base).value;
    var child := ChildName(SubcatchmentNames(s), base, id);
    SplitHostConservation(s, h, child, LidArea(lids[i], unitSystem), lids[i].number, id, base);
    TotalLidAreaScales(lids[i].number, lids[i].area, AreaConversion(unitSystem).value);
  }

  /**
   * A split, successful or not, renames no record; a successful one adds
   * exactly the child's name, so names that were unique stay unique.
   */
  lemma RainBarrelNames(s: Sections, lids: seq<Lid>, i: nat, id: string, unitSystem: string)
    requires i < |lids| && lids[i].location.subcatchment.Some? && WellFormed(s)
    ensures var r := RainBarrelStep(s, lids, i, id, unitSystem);
      var before := LinesOf(s, Subcatchments);
      var after := LinesOf(r.0, Subcatchments);
      && (forall j :: 0 <= j < |before| ==> NameOf(after[j]) == NameOf(before[j]))
      && (r.2.Some? ==> SubcatchmentNames(r.0) == SubcatchmentNames(s))
      && (r.2.None? ==>
            SubcatchmentNames(r.0) == SubcatchmentNames(s) + {ChildName(SubcatchmentNames(s), lids[i].location.subcatchment.value, id)})
      && (UniqueNames(before) ==> UniqueNames(after))
  {
    var base := lids[i].location.subcatchment.value;
    RainBarrelIsSplit(s, lids, i, id, unitSystem);
    if base in SubcatchmentNames(s) && AreaConversion(unitSystem).Some? {
      var h := FindSubcatchment(s, base).value;
      var child := ChildName(SubcatchmentNames(s), base, id);
      SplitHostNames(s, h, child, LidArea(lids[i], unitSystem), lids[i].number, id, base);
      SplitHostNameSet(s, h, child, LidArea(lids[i], unitSystem), lids[i].number, id, base);
    }
  }

  /** A failed split appends nothing, renames nothing, and writes the host only when an area check fails. */
  lemma RainBarrelFailureAppendsNothing(s: Sections, lids: seq<Lid>, i: nat, id: string, unitSystem: string)
    requires i < |lids| && lids[i].location.subcatchment.Some? && WellFormed(s)
    ensures var r := RainBarrelStep(s, lids, i, id, unitSystem);
      r.2.Some? ==>
        && r.1 == lids
        && |LinesOf(r.0, Subcatchments)| == |LinesOf(s, Subcatchments)|
        && SubcatchmentNames(r.0) == SubcatchmentNames(s)
        && (r.2.value.SubcatchmentNotFound? || r.2.value.UnknownUnitSystem? ==> r.0 == s)
  {
    RainBarrelIsSplit(s, lids, i, id, unitSystem);
    RainBarrelNames(s, lids, i, id, unitSystem);
  }

  /** The counted part for a LID whose control is not a rain barrel only appends the usage record. */
  lemma CountedOtherCase(st: RunState, i: nat, code: Value, unitSystem: string)
    requires i < |st.lids| && st.lids[i].location.subcatchment.Some? && WellFormed(st.sections)
    requires code != Text("RB")
    ensures var r := CountedStep(st, i, code, unitSystem);
      r.1.None? && r.0.lids == st.lids && r.0.sections == AppendUsage(st.sections, UsageRecord(st.lids[i]))
  {
  }

  /** The counted part for a rain barrel splits its host and appends the usage record only after a successful split. */
  lemma CountedRainBarrelCase(st: RunState, i: nat, unitSystem: string)
    requires i < |st.lids| && st.lids[i].location.subcatchment.Some? && WellFormed(st.sections)
    ensures var lidType := st.lids[i].lidType;
      var count := CountOf(st.counter, lidType) + 1;
      var id := LidId(lidType, count);
      var rb := RainBarrelStep(st.sections, st.lids, i, id, unitSystem);
      var r := CountedStep(st, i, Text("RB"), unitSystem);
      && r.0.lids == rb.1 && r.1 == rb.2
      && r.0.sections == if rb.2.Some? then rb.0 else AppendUsage(rb.0, UsageRecord(rb.1[i]))
  {
    var lidType := st.lids[i].lidType;
    var count := CountOf(st.counter, lidType) + 1;
    var rb := RainBarrelStep(st.sections, st.lids, i, LidId(lidType, count), unitSystem);
    assert CountedStep(st, i, Text("RB"), unitSystem) == AfterSplit(rb, i, st.counter[lidType := count], st.ids + [LidId(lidType, count)]);
  }

  /** The counted part, by the kind of the LID's control. */
  lemma CountedStepCases(st: RunState, i: nat, code: Value, unitSystem: string)
    requires i < |st.lids| && st.lids[i].location.subcatchment.Some? && WellFormed(st.sections)
    ensures var lidType := st.lids[i].lidType;
      var id := LidId(lidType, CountOf(st.counter, lidType) + 1);
      var r := CountedStep(st, i, code, unitSystem);
      && (code != Text("RB") ==>
            r.1.None? && r.0.lids == st.lids && r.0.sections == AppendUsage(st.sections, UsageRecord(st.lids[i])))
      && (code == Text("RB") ==>
            var rb := RainBarrelStep(st.sections, st.lids, i, id, unitSystem);
            && r.1 == rb.2 && r.0.lids == rb.1
            && r.0.sections == if rb.2.Some? then rb.0 else AppendUsage(rb.0, UsageRecord(rb.1[i])))
  {
    if code == Text("RB") {
      CountedRainBarrelCase(st, i, unitSystem);
    } else {
      CountedOtherCase(st, i, code, unitSystem);
    }
  }

  /** A failed counted part appends nothing and renames nothing. */
  lemma CountedFailureAppendsNothing(st: RunState, i: nat, code: Value, unitSystem: string)
    requires i < |st.lids| && st.lids[i].location.subcatchment.Some? && WellFormed(st.sections)
    ensures var r := CountedStep(st, i, code, unitSystem);
      r.1.Some? ==>
        && code == Text("RB")
        && LinesOf(r.0.sections, LidUsage) == LinesOf(st.sections, LidUsage)
        && |LinesOf(r.0.sections, Subcatchments)| == |LinesOf(st.sections, Subcatchments)|
        && SameOutside(r.0.sections, st.sections, Subcatchments)
        && SubcatchmentNames(r.0.sections) == SubcatchmentNames(st.sections)
        && (!r.1.value.NegativeArea? && !r.1.value.ZeroHostArea? && !r.1.value.InsufficientImpervious? ==>
              r.0.sections == st.sections)
  {
    CountedStepCases(st, i, code, unitSystem);
    if code == Text("RB") {
      var lidType := st.lids[i].lidType;
      var id := LidId(lidType, CountOf(st.counter, lidType) + 1);
      RainBarrelFailureAppendsNothing(st.sections, st.lids, i, id, unitSystem);
    }
  }

  /**
   * A failed step appends nothing: LID_USAGE and the number of subcatchments
   * are as before and no other section changes. Only the rain barrel's area
   * checks fail after the host record was written; any other failure leaves
   * the model exactly as it was.
   */
  lemma StepFailureAppendsNothing(st: RunState, i: nat, unitSystem: string, contains: Containment)
    requires i < |st.lids| && ValidLid(st.lids[i]) && WellFormed(st.sections)
    ensures var r := InjectStep(st, i, unitSystem, contains);
      r.1.Some? ==>
        && LinesOf(r.0.sections, LidUsage) == LinesOf(st.sections, LidUsage)
        && |LinesOf(r.0.sections, Subcatchments)| == |LinesOf(st.sections, Subcatchments)|
        && SameOutside(r.0.sections, st.sections, Subcatchments)
        && SubcatchmentNames(r.0.sections) == SubcatchmentNames(st.sections)
        && (!r.1.value.NegativeArea? && !r.1.value.ZeroHostArea? && !r.1.value.InsufficientImpervious? ==>
              r.0.sections == st.sections)
  {
    InjectStepIsCounted(st, i, unitSystem, contains);
    var placement := ResolvePlacements(st.sections, st.lids, i, contains);
    var code := LidTypeCode(st.sections, st.lids[i].lidType);
    if placement.1.None? && code.Ok? {
      CountedFailureAppendsNothing(st.(lids := placement.0), i, code.value, unitSystem);
    }
  }

  /**
   * A successful counted part appends exactly the LID's usage record and
   * changes no section other than SUBCATCHMENTS and LID_USAGE.
   */
  lemma CountedSuccess(st: RunState, i: nat, code: Value, unitSystem: string)
    requires i < |st.lids| && st.lids[i].location.subcatchment.Some? && WellFormed(st.sections)
    ensures var r := CountedStep(st, i, code, unitSystem);
      r.1.None? ==>
        && LinesOf(r.0.sections, LidUsage) == LinesOf(st.sections, LidUsage) + [Line(UsageRecord(r.0.lids[i]), None)]
        && (code != Text("RB") ==>
              LinesOf(r.0.sections, Subcatchments) == LinesOf(st.sections, Subcatchments) && r.0.lids == st.lids)
        && (code == Text("RB") ==>
              |LinesOf(r.0.sections, Subcatchments)| == |LinesOf(st.sections, Subcatchments)| + 1)
        && SameOutsideBoth(r.0.sections, st.sections, Subcatchments, LidUsage)
  {
    CountedStepCases(st, i, code, unitSystem);
  }

  /**
   * A successful step counts the LID's type, issues the id `<type>_<count>`,
   * leaves the LID placed in a subcatchment and appends exactly its LID_USAGE
   * record. A LID whose control is not a rain barrel changes no subcatchment;
   * a rain barrel adds exactly one. No section other than SUBCATCHMENTS and
   * LID_USAGE changes.
   */
  lemma StepSuccess(st: RunState, i: nat, unitSystem: string, contains: Containment)
    requires i < |st.lids| && ValidLid(st.lids[i]) && WellFormed(st.sections)
    ensures var step := InjectStep(st, i, unitSystem, contains);
      var next, failure := step.0, step.1;
      var lidType := st.lids[i].lidType;
      var count := CountOf(st.counter, lidType) + 1;
      failure.None? ==>
        && LidTypeCode(st.sections, lidType).Ok?
        && ResolvePlacements(st.sections, st.lids, i, contains).1.None?
        && next.counter == st.counter[lidType := count]
        && next.ids == st.ids + [LidId(lidType, count)]
        && next.lids[i].location.subcatchment.Some?
        && LinesOf(next.sections, LidUsage) == LinesOf(st.sections, LidUsage) + [Line(UsageRecord(next.lids[i]), None)]
        && (LidTypeCode(st.sections, lidType).value != Text("RB") ==>
              && LinesOf(next.sections, Subcatchments) == LinesOf(st.sections, Subcatchments)
              && next.lids == ResolvePlacements(st.sections, st.lids, i, contains).0)
        && (LidTypeCode(st.sections, lidType).value == Text("RB") ==>
              |LinesOf(next.sections, Subcatchments)| == |LinesOf(st.sections, Subcatchments)| + 1)
        && SameOutsideBoth(next.sections, st.sections, Subcatchments, LidUsage)
  {
    InjectStepIsCounted(st, i, unitSystem, contains);
    var placement := ResolvePlacements(st.sections, st.lids, i, contains);
    var code := LidTypeCode(st.sections, st.lids[i].lidType);
    if placement.1.None? && code.Ok? {
      CountedSuccess(st.(lids := placement.0), i, code.value, unitSystem);
    }
  }

  /** A LID whose control is not a rain barrel leaves SUBCATCHMENTS untouched, whatever the outcome. */
  lemma NonRainBarrelKeepsSubcatchments(st: RunState, i: nat, unitSystem: string, contains: Containment)
    requires i < |st.lids| && ValidLid(st.lids[i]) && WellFormed(st.sections)
    requires LidTypeCode(st.sections, st.lids[i].lidType) != Ok(Text("RB"))
    ensures var step := InjectStep(st, i, unitSystem, contains);
      var next, failure := step.0, step.1;
      LinesOf(next.sections, Subcatchments) == LinesOf(st.sections, Subcatchments) &&
      SubcatchmentNames(next.sections) == SubcatchmentNames(st.sections)
  {
    InjectStepIsCounted(st, i, unitSystem, contains);
    var placement := ResolvePlacements(st.sections, st.lids, i, contains);
    var code := LidTypeCode(st.sections, st.lids[i].lidType);
    if placement.1.None? && code.Ok? {
      CountedStepCases(st.(lids := placement.0), i, code.value, unitSystem);
    }
  }

  /** The counted part keeps every record's name and never introduces a duplicate. */
  lemma CountedKeepsNamesUnique(st: RunState, i: nat, code: Value, unitSystem: string)
    requires i < |st.lids| && st.lids[i].location.subcatchment.Some? && WellFormed(st.sections)
    ensures var r := CountedStep(st, i, code, unitSystem);
      var before, after := LinesOf(st.sections, Subcatchments), LinesOf(r.0.sections, Subcatchments);
      && |before| <= |after|
      && (forall j :: 0 <= j < |before| ==> NameOf(after[j]) == NameOf(before[j]))
      && SubcatchmentNames(st.sections) <= SubcatchmentNames(r.0.sections)
      && (UniqueNames(LinesOf(st.sections, Subcatchments)) ==> UniqueNames(LinesOf(r.0.sections, Subcatchments)))
  {
    CountedStepCases(st, i, code, unitSystem);
    if code == Text("RB") {
      var lidType := st.lids[i].lidType;
      var id := LidId(lidType, CountOf(st.counter, lidType) + 1);
      var rb := RainBarrelStep(st.sections, st.lids, i, id, unitSystem);
      RainBarrelNames(st.sections, st.lids, i, id, unitSystem);
      if rb.2.None? {
        NamesOfSameLength(rb.0, AppendUsage(rb.0, UsageRecord(rb.1[i])));
      }
    }
  }

  /** A step keeps every record's name and never introduces a duplicate; the name set only grows. */
  lemma StepKeepsNamesUnique(st: RunState, i: nat, unitSystem: string, contains: Containment)
    requires i < |st.lids| && ValidLid(st.lids[i]) && WellFormed(st.sections)
    ensures var step := InjectStep(st, i, unitSystem, contains);
      var next, failure := step.0, step.1;
      var before, after := LinesOf(st.sections, Subcatchments), LinesOf(next.sections, Subcatchments);
      && |before| <= |after|
      && (forall j :: 0 <= j < |before| ==> NameOf(after[j]) == NameOf(before[j]))
      && SubcatchmentNames(st.sections) <= SubcatchmentNames(next.sections)
      && (UniqueNames(LinesOf(st.sections, Subcatchments)) ==> UniqueNames(LinesOf(next.sections, Subcatchments)))
  {
    InjectStepIsCounted(st, i, unitSystem, contains);
    var placement := ResolvePlacements(st.sections, st.lids, i, contains);
    var code := LidTypeCode(st.sections, st.lids[i].lidType);
    if placement.1.None? && code.Ok? {
      CountedKeepsNamesUnique(st.(lids := placement.0), i, code.value, unitSystem);
    }
  }

  /** The records' names, in record order (None for a record without one). */
  function RecordNames(lines: seq<Line>): (r: seq<Option<string>>)
    ensures |r| == |lines|
  {
    if |lines| == 0 then [] else RecordNames(lines[..|lines| - 1]) + [NameOf(lines[|lines| - 1])]
  }

  /** No name occurs twice. */
  predicate NoRepeats(names: seq<Option<string>>) {
    |names| == 0 ||
    (NoRepeats(names[..|names| - 1]) && (names[|names| - 1].None? || names[|names| - 1] !in names[..|names| - 1]))
  }

  lemma {:induction false} RecordNamesIndex(lines: seq<Line>)
    ensures forall j :: 0 <= j < |lines| ==> RecordNames(lines)[j] == NameOf(lines[j])
  {
    if |lines| > 0 {
      RecordNamesIndex(lines[..|lines| - 1]);
    }
  }

  /** Unique names, stated on the name sequence. */
  lemma {:induction false} NoRepeatsIffUnique(lines: seq<Line>)
    ensures NoRepeats(RecordNames(lines)) <==> UniqueNames(lines)
  {
    if |lines| > 0 {
      var n := |lines| - 1;
      NoRepeatsIffUnique(lines[..n]);
      assert RecordNames(lines)[..n] == RecordNames(lines[..n]);
      UniqueNamesSnoc(lines);
      NameAbsent(lines[..n], lines[n]);
    }
  }

  /** A record list has unique names when its prefix does and its last name is new. */
  lemma UniqueNamesSnoc(lines: seq<Line>)
    requires 0 < |lines|
    ensures var n := |lines| - 1;
      UniqueNames(lines) <==>
        UniqueNames(lines[..n]) && (NameOf(lines[n]).None? || forall j :: 0 <= j < n ==> NameOf(lines[j]) != NameOf(lines[n]))
  {
    var n := |lines| - 1;
    assert forall j :: 0 <= j < n ==> lines[..n][j] == lines[j];
  }

  lemma NameAbsent(prefix: seq<Line>, last: Line)
    ensures NameOf(last) !in RecordNames(prefix) <==> forall j :: 0 <= j < |prefix| ==> NameOf(prefix[j]) != NameOf(last)
  {
    RecordNamesIndex(prefix);
    if NameOf(last) in RecordNames(prefix) {
      var j :| 0 <= j < |prefix| && RecordNames(prefix)[j] == NameOf(last);
    }
  }

  /** A record-name sequence that extends another carries all of its names. */
  lemma NamePrefixKeepsSet(s: Sections, r: Sections)
    requires RecordNames(LinesOf(s, Subcatchments)) <= RecordNames(LinesOf(r, Subcatchments))
    ensures SubcatchmentNames(s) <= SubcatchmentNames(r)
  {
    var before, after := LinesOf(s, Subcatchments), LinesOf(r, Subcatchments);
    RecordNamesIndex(before);
    RecordNamesIndex(after);
    forall name | name in SubcatchmentNames(s) ensures name in SubcatchmentNames(r) {
      var l :| l in before && NameOf(l) == Some(name);
      var j :| 0 <= j < |before| && before[j] == l;
      assert RecordNames(before)[j] == RecordNames(after)[j];
      assert after[j] in after;
    }
  }

  /** Names kept record by record, and uniqueness kept, stated on the name sequences. */
  lemma NamesExtended(before: seq<Line>, after: seq<Line>)
    requires |before| <= |after| && forall j :: 0 <= j < |before| ==> NameOf(after[j]) == NameOf(before[j])
    requires UniqueNames(before) ==> UniqueNames(after)
    ensures RecordNames(before) <= RecordNames(after)
    ensures NoRepeats(RecordNames(before)) ==> NoRepeats(RecordNames(after))
  {
    NamesPrefix(before, after);
    NoRepeatsIffUnique(before);
    NoRepeatsIffUnique(after);
  }

  lemma NamesPrefix(before: seq<Line>, after: seq<Line>)
    requires |before| <= |after| && forall j :: 0 <= j < |before| ==> NameOf(after[j]) == NameOf(before[j])
    ensures RecordNames(before) == RecordNames(after)[..|before|]
  {
    var a, b := RecordNames(before), RecordNames(after)[..|before|];
    RecordNamesIndex(before);
    RecordNamesIndex(after);
    forall j | 0 <= j < |before| ensures a[j] == b[j] {
      assert b[j] == RecordNames(after)[j];
    }
  }

  lemma PrefixTransitive<T>(a: seq<T>, b: seq<T>, c: seq<T>)
    requires a <= b && b <= c
    ensures a <= c
  {
  }

  /** A step extends the sequence of record names and never repeats one. */
  lemma StepExtendsNames(st: RunState, i: nat, unitSystem: string, contains: Containment)
    requires i < |st.lids| && ValidLid(st.lids[i]) && WellFormed(st.sections)
    ensures var next := InjectStep(st, i, unitSystem, contains).0;
      var before, after := RecordNames(LinesOf(st.sections, Subcatchments)), RecordNames(LinesOf(next.sections, Subcatchments));
      && before <= after
      && (NoRepeats(before) ==> NoRepeats(after))
  {
    var next := InjectStep(st, i, unitSystem, contains).0;
    StepKeepsNamesUnique(st, i, unitSystem, contains);
    NamesExtended(LinesOf(st.sections, Subcatchments), LinesOf(next.sections, Subcatchments));
  }

  /** The state's record names extend `names`. */
  ghost predicate NamesKeptFrom(st: RunState, names: seq<Option<string>>) {
    names <= RecordNames(LinesOf(st.sections, Subcatchments))
  }

  /** The state repeats no record name. */
  ghost predicate NamesDistinct(st: RunState) {
    NoRepeats(RecordNames(LinesOf(st.sections, Subcatchments)))
  }

  /** A step keeps the record names of the run's starting document, and repeats none if it started with none. */
  lemma StepKeepsNamesFrom(st: RunState, i: nat, unitSystem: string, contains: Containment, names: seq<Option<string>>)
    requires i < |st.lids| && ValidLid(st.lids[i]) && WellFormed(st.sections)
    requires NamesKeptFrom(st, names)
    ensures var r := InjectStep(st, i, unitSystem, contains);
      && NamesKeptFrom(r.0, names)
      && (NamesDistinct(st) ==> NamesDistinct(r.0))
  {
    var r := InjectStep(st, i, unitSystem, contains);
    StepExtendsNames(st, i, unitSystem, contains);
    PrefixTransitive(names, RecordNames(LinesOf(st.sections, Subcatchments)), RecordNames(LinesOf(r.0.sections, Subcatchments)));
  }

  /** How many of the first `n` LIDs have type `t`: the source's Counter after those LIDs. */
  function TypeCount(lids: seq<Lid>, t: string, n: nat): (c: nat)
    requires n <= |lids|
    ensures c <= n
  {
    if n == 0 then 0 else TypeCount(lids, t, n - 1) + (if lids[n - 1].lidType == t then 1 else 0)
  }

  /** A later LID of the same type has a strictly larger count. */
  lemma {:induction false} TypeCountIncreases(lids: seq<Lid>, j: nat, k: nat)
    requires j < k < |lids| && lids[j].lidType == lids[k].lidType
    ensures TypeCount(lids, lids[k].lidType, j + 1) < TypeCount(lids, lids[k].lidType, k + 1)
    decreases k - j
  {
    if j + 1 < k {
      var t := lids[k].lidType;
      TypeCountMonotone(lids, t, j + 1, k);
    }
  }

  lemma {:induction false} TypeCountMonotone(lids: seq<Lid>, t: string, m: nat, n: nat)
    requires m <= n <= |lids|
    ensures TypeCount(lids, t, m) <= TypeCount(lids, t, n)
    decreases n - m
  {
    if m < n {
      TypeCountMonotone(lids, t, m, n - 1);
    }
  }

  /** The LIDs' types, in document order. */
  function TypesOf(lids: seq<Lid>): seq<string> {
    seq(|lids|, j requires 0 <= j < |lids| => lids[j].lidType)
  }

  /** Placing LID `i` changes no LID's type. */
  lemma TypesKept(lids: seq<Lid>, placed: seq<Lid>, i: nat)
    requires i < |lids| == |placed| && placed[i].lidType == lids[i].lidType
    requires forall j :: 0 <= j < |lids| && j != i ==> placed[j] == lids[j]
    ensures TypesOf(placed) == TypesOf(lids)
  {
  }

  /** The counter after counting `types` in order. */
  function CounterAfter(types: seq<string>): map<string, nat> {
    if |types| == 0 then map[]
    else
      var counter := CounterAfter(types[..|types| - 1]);
      var t := types[|types| - 1];
      counter[t := CountOf(counter, t) + 1]
  }

  /** The ids issued while counting `types` in order, each `<type>_<count>`. */
  function IdsAfter(types: seq<string>): (r: seq<string>)
    ensures |r| == |types|
  {
    if |types| == 0 then []
    else
      var t := types[|types| - 1];
      IdsAfter(types[..|types| - 1]) + [LidId(t, CountOf(CounterAfter(types[..|types| - 1]), t) + 1)]
  }

  /** The counter after the first `n` LIDs holds each type's count among them. */
  lemma {:induction false} CounterAfterCounts(lids: seq<Lid>, t: string, n: nat)
    requires n <= |lids|
    ensures CountOf(CounterAfter(TypesOf(lids)[..n]), t) == TypeCount(lids, t, n)
  {
    if n > 0 {
      assert TypesOf(lids)[..n][..n - 1] == TypesOf(lids)[..n - 1];
      CounterAfterCounts(lids, t, n - 1);
    }
  }

  /** The `j`-th id issued is `<type>_<k>` for the `k`-th LID of that type. */
  lemma {:induction false} IdsAfterIndex(lids: seq<Lid>, n: nat, j: nat)
    requires j < n <= |lids|
    ensures IdsAfter(TypesOf(lids)[..n])[j] == LidId(lids[j].lidType, TypeCount(lids, lids[j].lidType, j + 1))
  {
    assert TypesOf(lids)[..n][..n - 1] == TypesOf(lids)[..n - 1];
    if j < n - 1 {
      IdsAfterIndex(lids, n - 1, j);
    } else {
      CounterAfterCounts(lids, lids[j].lidType, j);
    }
  }

  /**
   * The ids issued so far: the counter and the ids are those of counting the
   * types of the LIDs already processed, in order.
   */
  ghost predicate IdsIssued(st: RunState) {
    && |st.ids| <= |st.lids|
    && st.counter == CounterAfter(TypesOf(st.lids)[..|st.ids|])
    && st.ids == IdsAfter(TypesOf(st.lids)[..|st.ids|])
  }

  /** Counting the next LID, or counting nothing, keeps the issued ids consistent. */
  lemma IssuedAfterCounting(st: RunState, i: nat, next: RunState, failure: Option<Error>)
    requires IdsIssued(st) && |st.ids| == i < |st.lids|
    requires StepShape(st, i, (next, failure))
    ensures IdsIssued(next) && TypesOf(next.lids) == TypesOf(st.lids)
    ensures failure.None? ==> |next.ids| == i + 1
  {
    TypesKept(st.lids, next.lids, i);
    var n := |st.ids|;
    if |next.ids| != n {
      assert TypesOf(st.lids)[..n + 1][..n] == TypesOf(st.lids)[..n];
    }
  }

  /** A step issues at most the next id, and does issue it when it succeeds; it never changes a LID's type. */
  lemma StepIssuesId(st: RunState, i: nat, unitSystem: string, contains: Containment)
    requires i < |st.lids| && ValidLid(st.lids[i]) && WellFormed(st.sections)
    requires IdsIssued(st) && |st.ids| == i
    ensures var r := InjectStep(st, i, unitSystem, contains);
      && IdsIssued(r.0) && TypesOf(r.0.lids) == TypesOf(st.lids)
      && (r.1.None? ==> |r.0.ids| == i + 1)
  {
    var r := InjectStep(st, i, unitSystem, contains);
    InjectStepShape(st, i, unitSystem, contains);
    IssuedAfterCounting(st, i, r.0, r.1);
  }

  lemma {:induction false} RunFromIssuesIds(st: RunState, i: nat, unitSystem: string, contains: Containment)
    requires RunReady(st, i) && IdsIssued(st) && |st.ids| == i
    ensures var run := RunFrom(st, i, unitSystem, contains);
      && IdsIssued(run.0) && TypesOf(run.0.lids) == TypesOf(st.lids)
      && (run.1.None? ==> |run.0.ids| == |st.lids|)
    decreases |st.lids| - i
  {
    if i < |st.lids| {
      var step := InjectStep(st, i, unitSystem, contains);
      RunFromNext(st, i, unitSystem, contains);
      StepIssuesId(st, i, unitSystem, contains);
      if step.1.None? {
        RunFromIssuesIds(step.0, i + 1, unitSystem, contains);
      }
    }
  }

  /**
   * The ids a run issues are `<type>_<k>` for the `k`-th LID of each type, in
   * document order, one per LID when the run succeeds; no two are equal.
   */
  lemma RunIssuesDistinctIds(s: Sections, lids: seq<Lid>, unitSystem: string, contains: Containment, r: (RunState, Option<Error>))
    requires WellFormed(s) && forall j :: 0 <= j < |lids| ==> ValidLid(lids[j])
    requires r == Run(s, lids, unitSystem, contains)
    ensures |r.0.ids| <= |lids|
    ensures r.1.None? ==> |r.0.ids| == |lids|
    ensures forall j :: 0 <= j < |r.0.ids| ==> r.0.ids[j] == LidId(lids[j].lidType, TypeCount(lids, lids[j].lidType, j + 1))
    ensures forall j, k :: 0 <= j < k < |r.0.ids| ==> r.0.ids[j] != r.0.ids[k]
  {
    var start := RunState(s, lids, map[], []);
    NothingIssuedAtStart(start);
    RunFromIssuesIds(start, 0, unitSystem, contains);
    IssuedIdsOf(lids, r.0);
  }

  /** A run starts with an empty counter and no ids: nothing counted yet. */
  lemma NothingIssuedAtStart(st: RunState)
    requires st.counter == map[] && st.ids == []
    ensures IdsIssued(st)
  {
    assert TypesOf(st.lids)[..0] == [];
  }

  /** The ids issued in a state, read against the original LID list. */
  lemma IssuedIdsOf(lids: seq<Lid>, final: RunState)
    requires IdsIssued(final) && TypesOf(final.lids) == TypesOf(lids)
    ensures |final.ids| <= |lids|
    ensures forall j :: 0 <= j < |final.ids| ==> final.ids[j] == LidId(lids[j].lidType, TypeCount(lids, lids[j].lidType, j + 1))
    ensures forall j, k :: 0 <= j < k < |final.ids| ==> final.ids[j] != final.ids[k]
  {
    var n := |final.ids|;
    assert |lids| == |TypesOf(lids)|;
    forall j | 0 <= j < n
      ensures final.ids[j] == LidId(lids[j].lidType, TypeCount(lids, lids[j].lidType, j + 1))
    {
      IdsAfterIndex(lids, n, j);
    }
    IdsDistinct(lids, final.ids);
  }

  /** Ids numbered per type in document order are pairwise distinct. */
  lemma IdsDistinct(lids: seq<Lid>, ids: seq<string>)
    requires |ids| <= |lids|
    requires forall j :: 0 <= j < |ids| ==> ids[j] == LidId(lids[j].lidType, TypeCount(lids, lids[j].lidType, j + 1))
    ensures forall j, k :: 0 <= j < k < |ids| ==> ids[j] != ids[k]
  {
    forall j, k | 0 <= j < k < |ids| ensures ids[j] != ids[k] {
      if ids[j] == ids[k] {
        LidIdInjective(lids[j].lidType, TypeCount(lids, lids[j].lidType, j + 1),
                       lids[k].lidType, TypeCount(lids, lids[k].lidType, k + 1));
        TypeCountIncreases(lids, j, k);
      }
    }
  }

  /** Every one of `lids` is placed in a subcatchment. */
  predicate AllPlaced(lids: seq<Lid>) {
    |lids| == 0 || (AllPlaced(lids[..|lids| - 1]) && lids[|lids| - 1].location.subcatchment.Some?)
  }

  /** The LID_USAGE records of placed LIDs, in order. */
  function UsageLines(lids: seq<Lid>): (r: seq<Line>)
    requires AllPlaced(lids)
    ensures |r| == |lids|
  {
    if |lids| == 0 then [] else UsageLines(lids[..|lids| - 1]) + [Line(UsageRecord(lids[|lids| - 1]), None)]
  }

  lemma {:induction false} UsageLinesIndex(lids: seq<Lid>, n: nat)
    requires n <= |lids| && AllPlaced(lids[..n])
    ensures forall j :: 0 <= j < n ==>
      lids[j].location.subcatchment.Some? && UsageLines(lids[..n])[j] == Line(UsageRecord(lids[j]), None)
  {
    if n > 0 {
      assert lids[..n][..n - 1] == lids[..n - 1];
      UsageLinesIndex(lids, n - 1);
    }
  }

  /**
   * LID_USAGE after the first `n` LIDs went through: the old records, then
   * one record per LID, in order, each the usage record of that LID as placed.
   */
  ghost predicate UsageLog(st: RunState, before: seq<Line>, n: nat) {
    n <= |st.lids| && AllPlaced(st.lids[..n]) && LinesOf(st.sections, LidUsage) == before + UsageLines(st.lids[..n])
  }

  /** A step that appends nothing and keeps the LIDs before `i` keeps the log. */
  lemma UsageLogKept(st: RunState, next: RunState, before: seq<Line>, i: nat)
    requires UsageLog(st, before, i) && |next.lids| == |st.lids| && next.lids[..i] == st.lids[..i]
    requires LinesOf(next.sections, LidUsage) == LinesOf(st.sections, LidUsage)
    ensures UsageLog(next, before, i)
  {
  }

  /** A step that appends the usage record of the `i`-th LID, as placed, extends the log by that LID. */
  lemma UsageLogExtended(st: RunState, next: RunState, before: seq<Line>, i: nat)
    requires UsageLog(st, before, i) && i < |st.lids| && |next.lids| == |st.lids| && next.lids[..i] == st.lids[..i]
    requires next.lids[i].location.subcatchment.Some?
    requires LinesOf(next.sections, LidUsage) == LinesOf(st.sections, LidUsage) + [Line(UsageRecord(next.lids[i]), None)]
    ensures UsageLog(next, before, i + 1)
  {
    assert next.lids[..i + 1][..i] == st.lids[..i];
  }

  /** Changing only the `i`-th LID keeps the ones before it. */
  lemma PrefixKept(a: seq<Lid>, b: seq<Lid>, i: nat)
    requires i < |a| == |b| && forall j :: 0 <= j < |a| && j != i ==> b[j] == a[j]
    ensures b[..i] == a[..i]
  {
  }

  lemma StepLogsUsage(st: RunState, i: nat, unitSystem: string, contains: Containment, before: seq<Line>)
    requires i < |st.lids| && ValidLid(st.lids[i]) && WellFormed(st.sections)
    requires UsageLog(st, before, i)
    ensures var step := InjectStep(st, i, unitSystem, contains);
      UsageLog(step.0, before, if step.1.None? then i + 1 else i)
  {
    StepFailureAppendsNothing(st, i, unitSystem, contains);
    StepSuccess(st, i, unitSystem, contains);
    var step := InjectStep(st, i, unitSystem, contains);
    PrefixKept(st.lids, step.0.lids, i);
    if step.1.None? {
      UsageLogExtended(st, step.0, before, i);
    } else {
      UsageLogKept(st, step.0, before, i);
    }
  }

  /**
   * The rest of a run logs the `n` LIDs it gets through, all of them when it
   * succeeds; it keeps the record names it starts from and repeats none when
   * it starts with none.
   */
  lemma {:induction false} RunFromLogsUsage(st: RunState, i: nat, unitSystem: string, contains: Containment, before: seq<Line>, names: seq<Option<string>>)
    returns (n: nat)
    requires RunReady(st, i) && UsageLog(st, before, i) && NamesKeptFrom(st, names)
    ensures var run := RunFrom(st, i, unitSystem, contains);
      && |run.0.lids| == |st.lids|
      && UsageLog(run.0, before, n)
      && (run.1.None? ==> n == |st.lids|)
      && NamesKeptFrom(run.0, names)
      && (NamesDistinct(st) ==> NamesDistinct(run.0))
    decreases |st.lids| - i
  {
    n := i;
    if i < |st.lids| {
      var step := InjectStep(st, i, unitSystem, contains);
      RunFromNext(st, i, unitSystem, contains);
      StepLogsUsage(st, i, unitSystem, contains, before);
      StepKeepsNamesFrom(st, i, unitSystem, contains, names);
      if step.1.None? {
        n := RunFromLogsUsage(step.0, i + 1, unitSystem, contains, before, names);
      }
    }
  }

  /**
   * A run only appends to LID_USAGE: one record per LID it got through, in
   * order, each with the LID's final placement; all of them when it succeeds.
   */
  lemma RunRecordsUsage(s: Sections, lids: seq<Lid>, unitSystem: string, contains: Containment, run: (RunState, Option<Error>))
    requires WellFormed(s) && forall j :: 0 <= j < |lids| ==> ValidLid(lids[j])
    requires run == Run(s, lids, unitSystem, contains)
    ensures var final, failure := run.0, run.1;
      var before := LinesOf(s, LidUsage);
      var after := LinesOf(final.sections, LidUsage);
      && |before| <= |after| <= |before| + |lids|
      && after[..|before|] == before
      && (failure.None? ==> |after| == |before| + |lids|)
      && |final.lids| == |lids|
      && forall j :: 0 <= j < |after| - |before| ==>
           final.lids[j].location.subcatchment.Some? && after[|before| + j] == Line(UsageRecord(final.lids[j]), None)
  {
    var before := LinesOf(s, LidUsage);
    var start := RunState(s, lids, map[], []);
    assert start.lids[..0] == [] && before + [] == before;
    var n := RunFromLogsUsage(start, 0, unitSystem, contains, before, RecordNames(LinesOf(s, Subcatchments)));
    UsageLinesIndex(run.0.lids, n);
  }

  /** A run keeps subcatchment names unique and removes none. */
  lemma RunKeepsNamesUnique(s: Sections, lids: seq<Lid>, unitSystem: string, contains: Containment, run: (RunState, Option<Error>))
    requires WellFormed(s) && forall j :: 0 <= j < |lids| ==> ValidLid(lids[j])
    requires run == Run(s, lids, unitSystem, contains)
    ensures SubcatchmentNames(s) <= SubcatchmentNames(run.0.sections)
    ensures UniqueNames(LinesOf(s, Subcatchments)) ==> UniqueNames(LinesOf(run.0.sections, Subcatchments))
  {
    var final := run.0;
    var before := LinesOf(s, LidUsage);
    var start := RunState(s, lids, map[], []);
    assert start.lids[..0] == [] && before + [] == before;
    var n := RunFromLogsUsage(start, 0, unitSystem, contains, before, RecordNames(LinesOf(s, Subcatchments)));
    NamePrefixKeepsSet(s, final.sections);
    NoRepeatsIffUnique(LinesOf(s, Subcatchments));
    NoRepeatsIffUnique(LinesOf(final.sections, Subcatchments));
  }

  /** The unit system matters only on the rain-barrel path: any other LID's step ignores it. */
  lemma NonRainBarrelIgnoresUnitSystem(st: RunState, i: nat, unitSystem: string, other: string, contains: Containment)
    requires i < |st.lids| && ValidLid(st.lids[i]) && WellFormed(st.sections)
    requires LidTypeCode(st.sections, st.lids[i].lidType) != Ok(Text("RB"))
    ensures InjectStep(st, i, unitSystem, contains) == InjectStep(st, i, other, contains)
  {
  }

  /** A 2 ha SI subcatchment `S1` at 80% impervious and one rain-barrel control `barrel`. */
  function ScenarioModel(): Sections {
    map[
      Subcatchments := Section([Line([Text("S1"), Text("RG1"), Text("J1"), Decimal(2.0), Integer(80)], None)], None),
      LidControls := Section([Line([Text("barrel"), Text("RB")], None)], None)]
  }

  /** One rain barrel of 50 m^2 placed in `S1` by name. */
  function ScenarioLid(): Lid {
    Lid("barrel", Location(None, Some("S1")), None, 1, 50.0, 0.0, 0.0, 100.0, 0.0, None)
  }

  /** In the scenario, the barrel keeps its named placement, its control is a rain barrel, and its id is `barrel_1`. */
  lemma ScenarioLookups(contains: Containment)
    ensures ResolvePlacements(ScenarioModel(), [ScenarioLid()], 0, contains) == ([ScenarioLid()], None)
    ensures LidTypeCode(ScenarioModel(), "barrel") == Ok(Text("RB"))
    ensures LidId("barrel", 1) == "barrel_1"
  {
    var s, lid := ScenarioModel(), ScenarioLid();
    assert ResolveLocation(lid.location, PolygonsOf(s), contains) == Ok(lid.location);
    assert ResolveDrain(None, PolygonsOf(s), contains) == Ok(None);
    assert [lid][0 := lid] == [lid];
    assert NatToString(1) == "1";
  }

  /**
   * The scenario's split: it succeeds, shrinks `S1` to 1.995 ha, appends the
   * child `S1##barrel_1` with 0.005 ha at 0% impervious, and moves the barrel
   * into the child.
   */
  lemma ScenarioSplit()
    ensures var r := RainBarrelStep(ScenarioModel(), [ScenarioLid()], 0, "barrel_1", "SI");
      && r.2 == None
      && r.1 == [ScenarioLid().(location := Location(None, Some("S1##barrel_1")))]
      && LinesOf(r.0, Subcatchments) == [
           Line([Text("S1"), Text("RG1"), Text("J1"), Decimal(1.995), Decimal(NewImperviousPercent(80.0, 2.0, 0.005))], None),
           Line([Text("S1##barrel_1"), Text("RG1"), Text("J1"), Decimal(0.005), Integer(0)], Some(ChildComment(1)))]
  {
    var s := ScenarioModel();
    assert FindSubcatchment(s, "S1") == Some(0);
    assert SubcatchmentNames(s) == {"S1"} by {
      assert LinesOf(s, Subcatchments)[0] in LinesOf(s, Subcatchments);
    }
    assert ChildNameCandidate("S1", "barrel_1", 0) !in SubcatchmentNames(s);
    assert ChildName(SubcatchmentNames(s), "S1", "barrel_1") == "S1##barrel_1";
    NewImperviousBounds(80.0, 2.0, 0.005);
    var host := [Text("S1"), Text("RG1"), Text("J1"), Decimal(2.0), Integer(80)];
    assert LinesOf(s, Subcatchments)[0].values == host;
    assert TotalLidArea(1, 50.0, 10000.0) == 0.005;
    var shrunk := host[SubcatchmentArea := Decimal(2.0 - 0.005)];
    assert shrunk == [Text("S1"), Text("RG1"), Text("J1"), Decimal(1.995), Integer(80)];
    var imperv := NewImperviousPercent(80.0, 2.0, 0.005);
    assert shrunk[SubcatchmentImperv := Decimal(imperv)]
        == [Text("S1"), Text("RG1"), Text("J1"), Decimal(1.995), Decimal(imperv)];
    assert ChildValues(host, "S1##barrel_1", 0.005) == [Text("S1##barrel_1"), Text("RG1"), Text("J1"), Decimal(0.005), Integer(0)];
  }
}
