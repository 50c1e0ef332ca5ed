# OSTRICH-SWMM parameter injection, modelled in Dafny

OSTRICH-SWMM edits a parsed SWMM (EPA Storm Water Management Model) input
file so that it contains a set of low-impact-development (LID) units described
by a parameter document. This project models the injection engine of
`ostrich_swmm/inject.py` and proves what it guarantees:

- **Zone lookup** (`get_subcatchment_definition`): a first-match scan of the
  SUBCATCHMENTS records by name (`ZoneLookup`).
- **Polygon grouping** (`extract_subcatchment_polygons`): POLYGONS vertex records
  grouped by subcatchment, in section order (`Geometry`).
- **Coordinate resolution** (`get_subcatchment_from_map_coords`): the first
  polygon containing a map point, else a placement error carrying the
  coordinates (`Geometry`).
- **The injector** (`inject_parameters_into_input`), per LID in document order
  (`InjectionSpec` as functions, `Injector` as methods over the mutable model):
  - resolve a location or drain target given in map coordinates;
  - look the LID type up in LID_CONTROLS;
  - count the type and issue the id `<type>_<k>`;
  - for a rain barrel (control type `RB`):
    - name a child subcatchment `<host>##<id>`, or `<host>##<id>###<k>` for the
      least free `k`;
    - move the LID's area out of the host, and recompute the host's %Imperv so
      that impervious area is conserved;
    - check both results, append the child and move the LID into it;
  - append one ten-field LID_USAGE record.
  The first error ends the run.

The input model is a map from section name to a list of records. Each record
holds parsed field values (token, integer or decimal) and an optional comment.
A name field (a subcatchment's, a polygon vertex's owner, a LID control's) is
always a token, whatever it spells: a subcatchment named `1` carries the token
`"1"`, so name lookup compares the field text as the source does. Numeric
fields are integers or decimals. Field positions follow the SWMM 5 format:

- SUBCATCHMENTS: Name 0, Area 3, %Imperv 4;
- POLYGONS: Subcat 0, X 1, Y 2;
- LID_CONTROLS: Name 0, Type 1.

Area arithmetic is over exact reals:

- 1 acre = 43560 ft² (US units);
- 1 ha = 10000 m² (SI units);
- 1 % = 1/100.

The injector is imperative, so it is modelled as methods. They edit a
`SwmmModel` (the sections) and an `InputParameters` (the LID list) in place.
Each method is proved equal to a specification function:

- `InjectLid` equals `InjectStep`;
- `InjectParametersIntoInput` equals `Run`;
- `SplitRainBarrel` equals `RainBarrelStep`, and its host edit `SplitHostInPlace` equals `SplitHost`;
- `ResolveLidPlacements` equals `ResolvePlacements`;
- `ExtractSubcatchmentPolygons` equals `PolygonsOf`;
- `UniqueChildName` equals `ChildName`.

The geometry index is built the first time a LID gives map coordinates and is
reused after that; `ResolveLidPlacements` and `InjectLid` state this for each
iteration. The properties are lemmas about those functions.

On an error the model keeps exactly the changes the source has already made:

- A resolved location stays written when the drain target then fails.
- The host record is rewritten before each area check, so a failed check leaves
  it changed.

The model then proves only that nothing is appended.

## Model

| member | source | states |
|---|---|---|
| ZoneLookup.FindLine | ostrich_swmm/inject.py:70-75 | the position of the first non-empty record whose field holds the name; no earlier record holds it; None exactly when no record does |
| ZoneLookup.FindSubcatchment | ostrich_swmm/inject.py:66-75 | None when SUBCATCHMENTS is absent; found exactly when the name is among the subcatchment names; the found record carries the name and no earlier record does |
| ZoneLookup.GetSubcatchmentDefinition | ostrich_swmm/inject.py:55-75 | None when SUBCATCHMENTS is absent or no record has the name; otherwise the values of a record actually in the section, whose Name is the query, with no earlier record of that name |
| ZoneLookup.NameFoundIffPresent | ostrich_swmm/inject.py:70-75 | lookup by name succeeds exactly when some non-empty record carries the name |
| Geometry.PolygonsOf | ostrich_swmm/inject.py:34-36 | a missing POLYGONS section gives an empty index; the index order lists exactly its keys |
| Geometry.NamesInOrderDistinct | ostrich_swmm/inject.py:41-51 | each subcatchment appears once among the index keys |
| Geometry.NamesInOrderAreNames | ostrich_swmm/inject.py:37-46 | a name is a key exactly when some non-empty vertex record names it (blank records are skipped) |
| Geometry.AbsentNameHasNoVertices | ostrich_swmm/inject.py:37-46 | a name with no vertex record has no vertices |
| Geometry.VerticesOfConcat | ostrich_swmm/inject.py:37-46 | grouping keeps section order: the vertices of two consecutive runs of records are the vertices of the first run followed by those of the second |
| Geometry.PolygonsOfGroups | ostrich_swmm/inject.py:19-52 | the keys are exactly the names with a vertex record, each once, and each maps to exactly its vertices in section order |
| Geometry.ExtractSubcatchmentPolygons | ostrich_swmm/inject.py:28-52 | the grouping loop builds exactly the index PolygonsOf describes |
| Geometry.FirstContaining | ostrich_swmm/inject.py:92-94 | the first polygon, in iteration order, that contains the point; None exactly when none does |
| Geometry.SubcatchmentFromMapCoords | ostrich_swmm/inject.py:78-101 | a returned name is a key whose polygon contains the point; the error carries the point's x and y and occurs exactly when no polygon contains the point |
| Geometry.UniqueContainerResolves | ostrich_swmm/inject.py:91-94 | whatever the iteration order, a point inside exactly one polygon resolves to that subcatchment |
| Format.NatToString | ostrich_swmm/inject.py:177 | the decimal digits of a count denote that count (`DigitsValue`), with no leading zero; non-empty, all digits, a single digit exactly below 10 |
| Format.NatToStringInjective | ostrich_swmm/inject.py:177 | distinct counts print differently |
| Identifiers.LidIdInjective | ostrich_swmm/inject.py:175-177 | `<type>_<k>` determines both the type and the count |
| Identifiers.CandidateInjective | ostrich_swmm/inject.py:198-210 | distinct suffix indices give distinct child-name candidates |
| Identifiers.FirstFreeSuffix | ostrich_swmm/inject.py:204-214 | the probing loop stops at a free candidate, and every candidate it skipped is taken |
| Identifiers.ChildName | ostrich_swmm/inject.py:196-214 | the child name matches no existing subcatchment name, and it is `<host>##<id>` unless that name is taken |
| Identifiers.ChildNameIsLeastFree | ostrich_swmm/inject.py:196-214 | the child name is `<host>##<id>` when free, else `<host>##<id>###<k>` for the least k ≥ 1 that is free |
| Identifiers.UniqueChildName | ostrich_swmm/inject.py:198-214 | the loop over subcatchment lookups returns ChildName over the model's names: the probed candidate, free, all earlier candidates taken |
| ZoneSplit.AreaConversion | ostrich_swmm/inject.py:221-230 | a conversion exists exactly for the unit systems US and SI, and it is positive |
| ZoneSplit.TotalLidAreaScales | ostrich_swmm/inject.py:231-238 | the LID's total area in the subcatchment unit times the conversion is the unit count times the unit area, and it is non-negative for a non-negative unit area |
| ZoneSplit.NewImperviousClosedForm | ostrich_swmm/inject.py:251-264 | the new host %Imperv is (p·A − 100·L)/(A − L) |
| ZoneSplit.ImperviousAreaConserved | ostrich_swmm/inject.py:256-264 | new%/100·(A − L) + L = p/100·A |
| ZoneSplit.NewImperviousBounds | ostrich_swmm/inject.py:251-266 | with 0 ≤ p ≤ 100 and 0 ≤ L < A the new host % is at most p |
| ZoneSplit.NewImperviousNegativeIff | ostrich_swmm/inject.py:256-272 | with L < A the new host % is negative exactly when the host's impervious area p/100·A is below L |
| ZoneSplit.SiRainBarrelExample | ostrich_swmm/inject.py:224-264 | 50 m² in a 2 ha host at 80 %: the LID takes 0.005 ha and the host's %Imperv drops to just under 80 % |
| InjectionSpec.ResolveLocation | ostrich_swmm/inject.py:138-144 | a location without map coordinates is kept; resolved map coordinates set the subcatchment to one whose polygon contains them; it fails exactly when the location gives map coordinates that no polygon contains, with the placement error carrying them |
| InjectionSpec.ResolveDrain | ostrich_swmm/inject.py:147-153 | the same for a drain target, keeping its node: it fails exactly when its map coordinates lie in no polygon |
| InjectionSpec.ResolvePlacements | ostrich_swmm/inject.py:137-153 | only LID i's location and drain target change; a failed location changes nothing; a resolved location is written as ResolveLocation gives it, and stays written when the drain target then fails; a resolved drain target is written as ResolveDrain gives it; success leaves the LID in a subcatchment |
| InjectionSpec.LidTypeCode | ostrich_swmm/inject.py:155-181 | the missing-controls error occurs exactly when there is no LID_CONTROLS section; the unknown-type error exactly when the section exists and no control has the name; the call succeeds exactly when some control has the name, with the Type field of the first such control |
| InjectionSpec.AppendUsage | ostrich_swmm/inject.py:313-322 | LID_USAGE becomes the old records plus the new one with no comment; an absent section is created with no comment; nothing else changes |
| InjectionSpec.WithHostValues | ostrich_swmm/inject.py:242 | the host record's values are replaced in place, keeping its comment; no other record or section changes |
| InjectionSpec.AppendSubcatchment | ostrich_swmm/inject.py:274-279 | SUBCATCHMENTS becomes the old records plus the child; nothing else changes |
| InjectionSpec.SplitHost | ostrich_swmm/inject.py:232-279 | only SUBCATCHMENTS changes and the model stays well formed; one record is added exactly on success; an error is one of the three area errors |
| InjectionSpec.RainBarrelStep | ostrich_swmm/inject.py:184-282 | only SUBCATCHMENTS and LID i's location change; exactly one record is added on success and none on failure; the model stays well formed |
| InjectionSpec.CountedStep | ostrich_swmm/inject.py:175-322 | the type is counted and `<type>_<count>` issued; only LID i's location can change; POLYGONS and LID_CONTROLS are untouched; the model stays well formed |
| InjectionSpec.InjectStep | ostrich_swmm/inject.py:136-322 | only LID i's placements change; POLYGONS and LID_CONTROLS are untouched; either nothing was counted (on an error) or the type was counted and `<type>_<count>` issued |
| Injector.ResolveLidPlacements | ostrich_swmm/inject.py:129-153 | the LID list after resolving equals ResolvePlacements; an index already built is reused unchanged; afterwards an index exists exactly when one existed or this LID gives map coordinates for its location or drain target, and it equals PolygonsOf |
| Injector.SplitHostInPlace | ostrich_swmm/inject.py:217-272 | the model and error after editing the host record in place and appending the child equal SplitHost |
| Injector.SplitRainBarrel | ostrich_swmm/inject.py:184-282 | the model and LID list after the rain-barrel branch, and its error, equal RainBarrelStep |
| Injector.InjectLid | ostrich_swmm/inject.py:129-322 | the model, LID list, counter, issued ids and error after one loop iteration equal InjectStep; the geometry index is reused when already built and exists afterwards exactly when it did or this LID needed it |
| Injector.InjectParametersIntoInput | ostrich_swmm/inject.py:104-322 | the model, LID list and error after the loop equal Run: the steps in document order, stopping at the first error |
| InjectionProperties.SplitHostOutcome | ostrich_swmm/inject.py:239-272 | with host area A, host impervious area p/100·A and LID area L: the below-zero error exactly when L > A; the division-by-zero case exactly when L = A; the not-enough-impervious error exactly when L < A and p/100·A < L; success exactly when L < A and L ≤ p/100·A |
| InjectionProperties.SplitHostRecords | ostrich_swmm/inject.py:241-279 | a successful split sets the host's Area to A − L and its %Imperv to the recomputed value, keeps its comment and every other record, and appends the child with comment `<n> LID units. (Added by OSTRICH-SWMM.)` |
| InjectionProperties.SplitRecordsFields | ostrich_swmm/inject.py:218-279 | the host keeps every field but Area and %Imperv; the child copies the host in every field but Name (the child name), Area (L) and %Imperv (0) |
| InjectionProperties.SplitHostConservation | ostrich_swmm/inject.py:233-266 | after a successful split the child's area is the LID area, child and host areas add up to the old host area, the host area is positive, impervious area is conserved, and the new %Imperv is non-negative and, when the LID area is non-negative and the old %Imperv at most 100, no higher than before |
| InjectionProperties.SplitHostNameSet | ostrich_swmm/inject.py:216-279 | with a free child name, a failed split keeps the set of names and a successful one adds exactly the child; unique names stay unique |
| InjectionProperties.RainBarrelLookupOutcome | ostrich_swmm/inject.py:184-230 | the host-not-found error occurs exactly when no record carries the LID's subcatchment; the unknown-unit-system error exactly when the host exists and the unit system is neither US nor SI |
| InjectionProperties.RainBarrelAreaOutcome | ostrich_swmm/inject.py:232-272 | once host and conversion are found, the split's outcome is the one the area checks give for the host record and the LID's converted area |
| InjectionProperties.RainBarrelRecords | ostrich_swmm/inject.py:216-282 | on success the host keeps every field but Area and %Imperv, and no other record changes; the appended child copies the host except Name = child name, Area = LID area, %Imperv = 0, with comment `<n> LID units. (Added by OSTRICH-SWMM.)`; the child name was free and the LID now sits in it |
| InjectionProperties.RainBarrelConservation | ostrich_swmm/inject.py:232-272 | on success the child's area is the LID's converted area, non-negative when the unit area is; child area + new host area = old host area; the new host area is positive; impervious area is conserved; the new %Imperv is non-negative and, when the LID area is non-negative and the old %Imperv at most 100, no higher than before |
| InjectionProperties.RainBarrelNames | ostrich_swmm/inject.py:196-282 | no record is renamed; a failure adds no name; a success adds exactly the child name; unique names stay unique |
| InjectionProperties.RainBarrelFailureAppendsNothing | ostrich_swmm/inject.py:191-272 | a failed split appends no record and keeps the LID list; a missing host or unknown unit system leaves the model unchanged |
| InjectionProperties.CountedFailureAppendsNothing | ostrich_swmm/inject.py:175-322 | once placed and typed, a LID fails only as a rain barrel; the failure leaves LID_USAGE, the SUBCATCHMENTS count, the names and every other section as they were, and the model itself unless an area check failed |
| InjectionProperties.CountedSuccess | ostrich_swmm/inject.py:175-322 | once placed and typed, a success appends exactly the LID's usage record; a non-rain-barrel LID leaves SUBCATCHMENTS and the LID list unchanged; a rain barrel adds one subcatchment record; no section other than SUBCATCHMENTS and LID_USAGE changes |
| InjectionProperties.StepFailureAppendsNothing | ostrich_swmm/inject.py:136-272 | a failed step leaves LID_USAGE and the SUBCATCHMENTS count and names as they were and changes no other section; only the area checks leave a rewritten host |
| InjectionProperties.StepSuccess | ostrich_swmm/inject.py:155-322 | a successful step counts the type and issues `<type>_<count>`; it appends exactly the LID's usage record; a non-rain-barrel LID leaves SUBCATCHMENTS unchanged and a rain barrel adds one record; no section other than SUBCATCHMENTS and LID_USAGE changes |
| InjectionProperties.NonRainBarrelKeepsSubcatchments | ostrich_swmm/inject.py:283-290 | whatever the outcome, a LID whose control is not `RB` leaves SUBCATCHMENTS unchanged |
| InjectionProperties.NonRainBarrelIgnoresUnitSystem | ostrich_swmm/inject.py:221-230 | the unit system is consulted only on the rain-barrel path |
| InjectionProperties.CountedKeepsNamesUnique | ostrich_swmm/inject.py:184-322 | once placed and typed, a LID renames no subcatchment record, removes none and keeps unique names unique |
| InjectionProperties.StepKeepsNamesUnique | ostrich_swmm/inject.py:196-279 | a step removes no subcatchment name and introduces no duplicate |
| InjectionProperties.RunKeepsNamesUnique | ostrich_swmm/inject.py:133-322 | a whole run keeps every subcatchment name and keeps unique names unique |
| InjectionProperties.IdsDistinct | ostrich_swmm/inject.py:175-177 | ids numbered per type in document order are pairwise distinct |
| InjectionProperties.StepIssuesId | ostrich_swmm/inject.py:175-177 | a step issues at most the next id, issues it when it succeeds, and changes no LID's type |
| InjectionProperties.RunFromIssuesIds | ostrich_swmm/inject.py:133-177 | the rest of a run keeps the counter and the ids those of counting the processed LIDs' types in order, changes no LID's type, and issues one id per LID when it succeeds |
| InjectionProperties.RunIssuesDistinctIds | ostrich_swmm/inject.py:133-177 | the j-th id of a run is `T_k` for LID j's type T, where k counts the LIDs of type T among the first j + 1 LIDs; a successful run issues one id per LID; no two ids are equal |
| InjectionProperties.StepLogsUsage | ostrich_swmm/inject.py:292-322 | a step appends one usage record on success and none on failure |
| InjectionProperties.RunFromLogsUsage | ostrich_swmm/inject.py:133-322 | the rest of a run from LID i logs, after the records already there, one usage record per LID it gets through, all of them when it succeeds; it keeps the record names it starts from and repeats none if it started with none |
| InjectionProperties.RunRecordsUsage | ostrich_swmm/inject.py:133-322 | a run keeps the old LID_USAGE records. It appends one record per LID processed, in order, each built from that LID's final placement: subcatchment, type, number, area, width, initSat, fromImp, toPerv, report file or '', and the drain (the subcatchment, else the node, else ''). A successful run appends one per LID |
| InjectionProperties.ScenarioLookups | ostrich_swmm/inject.py:104-187 | in a concrete SI model (subcatchment S1 of 2 ha at 80 %, control `barrel` of type RB), a barrel placed in S1 by name keeps that placement, its control's type is RB, and its id is `barrel_1` |
| InjectionProperties.ScenarioSplit | ostrich_swmm/inject.py:224-279 | in that model, splitting for a 50 m² barrel succeeds: S1 keeps 1.995 ha, the child `S1##barrel_1` gets 0.005 ha at 0 % with the comment `1 LID units. (Added by OSTRICH-SWMM.)`, and the barrel moves into the child |

## Left out

- Polygon construction and containment come from a geometry library (lines 49
  and 91-93). Containment is the parameter `contains`. The library's refusal of
  a polygon with fewer than three vertices is not modelled.
- Python 2 gives no fixed iteration order for the polygon dictionary (lines
  48-52 and 92). The model fixes first-appearance order. The proved facts do
  not depend on the order:
  - a returned subcatchment contains the point;
  - the error occurs exactly when no polygon does;
  - a point in exactly one polygon resolves to it.
- Parsing:
  - `float(...)` of field text and the unit library (lines 43-44, 222-226, 233-264)
    are not modelled. Fields arrive parsed and conversions are exact constants.
  - Floating-point rounding is not modelled.
  - `WellFormed` assumes a well-formed SWMM file throughout: every non-blank
    SUBCATCHMENTS, POLYGONS and LID_CONTROLS record has the fields the injector
    could read, its name field is a token, and its Area, %Imperv and vertex
    coordinates are numbers. This is stronger than what the source would fail
    on. The source converts Area and %Imperv only of the host record (lines 236
    and 253), reads the Type field only of the first matching control (line
    181), and reads POLYGONS only when some LID gives map coordinates (lines
    139-149).
- JSON Schema validation of the parameter document, and its memoised schema path
  (lines 114-124), are not modelled. The document is taken as valid. `ValidLid`
  keeps the one schema guarantee the injector relies on: a location gives map
  coordinates or a subcatchment.
- A missing `lids` key defaults to the empty list (line 134). The model takes the
  list itself.
- `si.get_unit_system` is not part of this model. The unit system is the
  parameter `unitSystem`.
- `si.data_indices` is not part of this model. Field positions are the SWMM 5
  constants above.
- `logging.warning` (lines 284-290) is a side effect only.
- `perform_injection` and `validate_config` (lines 325-368) do file I/O and
  filesystem checks.
- A LID exactly as large as its host makes the source divide by zero at line 259.
  Python raises ZeroDivisionError, not the configuration error of the other
  checks. The model reports this case as its own error, `ZeroHostArea`.
- The code never checks that a non-rain-barrel LID's subcatchment exists
  (lines 274-293). The model follows the code, so a LID_USAGE record can name a
  subcatchment the model does not contain. It proves only that a rain barrel's
  host exists and that its LID ends in the new child.
- Injector.InjectParametersIntoInput: the geometry index's caching is stated for
  each iteration by `InjectLid`, not as an invariant of the whole loop.
- The issued ids are ghost in `Injector.InjectLid`. The source keeps each id
  only as a local, and the ids are tracked solely to state the
  distinct-ids property.
