/**
 * The parameter document (a list of LID specifications, already validated
 * against its JSON schema) and the errors the injector raises.
 */
module Parameters {
  import opened Wrappers
  import opened SwmmInput

  /** Where a LID sits: map coordinates, a subcatchment name, or both once resolved. */
  datatype Location = Location(mapCoords: Option<Point>, subcatchment: Option<string>)

  /** Where a LID drains: map coordinates, a subcatchment, or a network node. */
  datatype DrainTo = DrainTo(mapCoords: Option<Point>, subcatchment: Option<string>, node: Option<string>)

  datatype Lid = Lid(
    lidType: string,
    location: Location,
    drainTo: Option<DrainTo>,
    number: nat,
    area: real,
    width: real,
    initSat: real,
    fromImp: real,
    toPerv: real,
    rptFile: Option<string>)

  /** What the document's schema guarantees of a location: it names a subcatchment or gives coordinates. */
  predicate ValidLid(lid: Lid) {
    lid.location.mapCoords.Some? || lid.location.subcatchment.Some?
  }

  /** The parameter document; the injector fills in resolved placements in place. */
  class InputParameters {
    var lids: seq<Lid>

    constructor (lids: seq<Lid>)
      ensures this.lids == lids
    {
      this.lids := lids;
    }
  }

  datatype Error =
    | PlacementError(x: real, y: real)                   // coordinates inside no subcatchment polygon
    | NoLidControls                                      // the input has no LID_CONTROLS section
    | UnknownLidType(lidType: string)                    // no LID control of that name
    | SubcatchmentNotFound(name: string)                 // a rain barrel's host does not exist
    | UnknownUnitSystem(system: string)                  // neither US nor SI
    | NegativeArea(lidId: string, subcatchment: string)  // the host would be left with negative area
    | ZeroHostArea(lidId: string, subcatchment: string)  // the host would be left with no area (division by zero)
    | InsufficientImpervious(lidId: string, subcatchment: string) // the host's %Imperv would go negative
}
