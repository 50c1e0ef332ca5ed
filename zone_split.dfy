/**
 * The rain-barrel split arithmetic: the LID's total area converted to the
 * subcatchment area unit, the host's reduced area, and the host's
 * recomputed %Imperv that keeps impervious area constant. Unit conversion
 * is exact: 1 acre = 43560 ft^2, 1 ha = 10000 m^2, 1 % = 1/100.
 */
module ZoneSplit {
  import opened Wrappers

  /**
   * LID area units per subcatchment area unit for a unit system:
   * square feet per acre (US) or square metres per hectare (SI).
   */
  function AreaConversion(unitSystem: string): (r: Option<real>)
    ensures r.Some? <==> unitSystem == "US" || unitSystem == "SI"
    ensures r.Some? ==> r.value > 0.0
  {
    if unitSystem == "US" then Some(43560.0)
    else if unitSystem == "SI" then Some(10000.0)
    else None
  }

  /** `number` units of `area` each, in LID area units, converted to the subcatchment area unit. */
  function TotalLidArea(number: nat, area: real, conversion: real): real
    requires conversion > 0.0
  {
    number as real * area / conversion
  }

  /** The total area is the unit count times the unit area, and is non-negative for a non-negative unit area. */
  lemma TotalLidAreaScales(number: nat, area: real, conversion: real)
    requires conversion > 0.0
    ensures TotalLidArea(number, area, conversion) * conversion == number as real * area
    ensures 0.0 <= area ==> 0.0 <= TotalLidArea(number, area, conversion)
  {
  }

  /**
   * The host's %Imperv after the split, as the source computes it: the old
   * impervious area minus the LID area, over the new host area, in percent.
   */
  function NewImperviousPercent(imperv: real, hostArea: real, lidArea: real): real
    requires hostArea - lidArea != 0.0
  {
    (imperv / 100.0 * hostArea - lidArea) / (hostArea - lidArea) * 100.0
  }

  /** Closed form of the recomputed percentage: (p*A - 100*L) / (A - L). */
  lemma NewImperviousClosedForm(imperv: real, hostArea: real, lidArea: real)
    requires hostArea - lidArea != 0.0
    ensures NewImperviousPercent(imperv, hostArea, lidArea) == (imperv * hostArea - 100.0 * lidArea) / (hostArea - lidArea)
  {
    var d := hostArea - lidArea;
    var x := imperv / 100.0 * hostArea - lidArea;
    assert x * 100.0 == imperv * hostArea - 100.0 * lidArea;
    assert x / d * 100.0 == (x * 100.0) / d;
  }

  /** Impervious area is conserved: the host keeps all of it except the LID area, which was impervious land. */
  lemma ImperviousAreaConserved(imperv: real, hostArea: real, lidArea: real)
    requires hostArea - lidArea != 0.0
    ensures NewImperviousPercent(imperv, hostArea, lidArea) / 100.0 * (hostArea - lidArea) + lidArea
         == imperv / 100.0 * hostArea
  {
    var d := hostArea - lidArea;
    var x := imperv / 100.0 * hostArea - lidArea;
    assert NewImperviousPercent(imperv, hostArea, lidArea) / 100.0 == x / d;
    assert x / d * d == x;
  }

  /** A split that passes both checks leaves the host's %Imperv in [0, 100] and no higher than before. */
  lemma NewImperviousBounds(imperv: real, hostArea: real, lidArea: real)
    requires 0.0 <= imperv <= 100.0 && 0.0 <= lidArea < hostArea
    ensures NewImperviousPercent(imperv, hostArea, lidArea) <= imperv <= 100.0
  {
    var d := hostArea - lidArea;
    NewImperviousClosedForm(imperv, hostArea, lidArea);
    assert imperv * hostArea - 100.0 * lidArea <= imperv * d by {
      assert imperv * lidArea <= 100.0 * lidArea;
    }
    assert (imperv * hostArea - 100.0 * lidArea) / d <= imperv * d / d;
  }

  /**
   * With the host left positive, the recomputed %Imperv is negative exactly
   * when the LID needs more area than the host's impervious land.
   */
  lemma NewImperviousNegativeIff(imperv: real, hostArea: real, lidArea: real)
    requires lidArea < hostArea
    ensures NewImperviousPercent(imperv, hostArea, lidArea) < 0.0 <==> imperv / 100.0 * hostArea < lidArea
  {
    var d := hostArea - lidArea;
    var x := imperv / 100.0 * hostArea - lidArea;
    assert NewImperviousPercent(imperv, hostArea, lidArea) == x / d * 100.0;
    assert x / d * d == x;
  }

  /**
   * One rain barrel of 50 m^2 in an SI host of 2 ha at 80% impervious: the
   * child gets 0.005 ha and the host's %Imperv drops to just under 80%.
   */
  lemma SiRainBarrelExample()
    ensures TotalLidArea(1, 50.0, AreaConversion("SI").value) == 0.005
    ensures 79.9 < NewImperviousPercent(80.0, 2.0, 0.005) < 80.0
  {
    NewImperviousClosedForm(80.0, 2.0, 0.005);
  }
}
