/**
 * The in-memory SWMM input model that the injector edits: a mapping from
 * section name to a section, each section an ordered list of records, each
 * record a positional list of field values plus an optional comment.
 * Field values arrive already parsed: a token, an integer or a decimal. A
 * name field is always a token, whatever it spells, so names compare as text.
 */
module SwmmInput {
  import opened Wrappers

  datatype Value = Text(text: string) | Integer(whole: int) | Decimal(magnitude: real)

  predicate IsNumber(v: Value) {
    v.Integer? || v.Decimal?
  }

  /** The number a numeric field holds (Python's `float(...)` of it). */
  function AsReal(v: Value): real
    requires IsNumber(v)
  {
    if v.Integer? then v.whole as real else v.magnitude
  }

  datatype Line = Line(values: seq<Value>, comment: Option<string>)

  datatype Section = Section(lines: seq<Line>, comment: Option<string>)

  type Sections = map<string, Section>

  const Subcatchments: string := "SUBCATCHMENTS"
  const Polygons: string := "POLYGONS"
  const LidControls: string := "LID_CONTROLS"
  const LidUsage: string := "LID_USAGE"

  // Field positions of the SWMM 5 input format.
  const SubcatchmentName: nat := 0
  const SubcatchmentArea: nat := 3
  const SubcatchmentImperv: nat := 4
  const PolygonSubcat: nat := 0
  const PolygonX: nat := 1
  const PolygonY: nat := 2
  const LidControlName: nat := 0
  const LidControlType: nat := 1

  /** A map coordinate. */
  datatype Point = Point(x: real, y: real)

  /** The records of a section; an absent section has none. */
  function LinesOf(s: Sections, section: string): seq<Line> {
    if section in s then s[section].lines else []
  }

  /** The record is non-empty and its field at position `field` is the token `name`. */
  predicate FieldIs(l: Line, field: nat, name: string) {
    field < |l.values| && l.values[field] == Text(name)
  }

  /** The name a non-empty subcatchment record carries, if it is a token. */
  function NameOf(l: Line): Option<string> {
    if 0 < |l.values| && l.values[SubcatchmentName].Text? then Some(l.values[SubcatchmentName].text) else None
  }

  /** The names of the existing subcatchments. */
  function SubcatchmentNames(s: Sections): set<string> {
    set l | l in LinesOf(s, Subcatchments) && NameOf(l).Some? :: NameOf(l).value
  }

  /** No two subcatchment records carry the same name. */
  predicate UniqueNames(lines: seq<Line>) {
    forall j, k :: 0 <= j < k < |lines| && NameOf(lines[j]).Some? ==> NameOf(lines[j]) != NameOf(lines[k])
  }

  // A record is well formed when every field the injector reads is present, its
  // name field is a token and, where the source converts it with float(), numeric.
  // Blank records are skipped.

  predicate WellFormedSubcatchment(l: Line) {
    |l.values| == 0 ||
    (SubcatchmentImperv < |l.values| && l.values[SubcatchmentName].Text? &&
     IsNumber(l.values[SubcatchmentArea]) && IsNumber(l.values[SubcatchmentImperv]))
  }

  predicate WellFormedPolygon(l: Line) {
    |l.values| == 0 ||
    (PolygonY < |l.values| && l.values[PolygonSubcat].Text? && IsNumber(l.values[PolygonX]) && IsNumber(l.values[PolygonY]))
  }

  predicate WellFormedLidControl(l: Line) {
    |l.values| == 0 || (LidControlType < |l.values| && l.values[LidControlName].Text?)
  }

  predicate WellFormed(s: Sections) {
    && (forall j :: 0 <= j < |LinesOf(s, Subcatchments)| ==> WellFormedSubcatchment(LinesOf(s, Subcatchments)[j]))
    && (forall j :: 0 <= j < |LinesOf(s, Polygons)| ==> WellFormedPolygon(LinesOf(s, Polygons)[j]))
    && (forall j :: 0 <= j < |LinesOf(s, LidControls)| ==> WellFormedLidControl(LinesOf(s, LidControls)[j]))
  }

  /** The input template, edited in place by the injector. */
  class SwmmModel {
    var sections: Sections

    constructor (sections: Sections)
      ensures this.sections == sections
    {
      this.sections := sections;
    }
  }
}
