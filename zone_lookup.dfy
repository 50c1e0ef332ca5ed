/** Finding a record by name: subcatchments by Name, LID controls by Name. */
module ZoneLookup {
  import opened Wrappers
  import opened SwmmInput

  /** Position of the first non-empty record whose field `field` is `name`. */
  function FindLine(lines: seq<Line>, field: nat, name: string): (r: Option<nat>)
    ensures r.Some? ==> r.value < |lines| && FieldIs(lines[r.value], field, name)
    ensures r.Some? ==> forall j :: 0 <= j < r.value ==> !FieldIs(lines[j], field, name)
    ensures r.None? ==> forall j :: 0 <= j < |lines| ==> !FieldIs(lines[j], field, name)
  {
    if |lines| == 0 then None
    else if FieldIs(lines[0], field, name) then Some(0)
    else
      match FindLine(lines[1..], field, name)
      case None => None
      case Some(k) => Some(k + 1)
  }

  /** Position of the subcatchment record named `name`: the record the source aliases and edits in place. */
  function FindSubcatchment(s: Sections, name: string): (r: Option<nat>)
    ensures Subcatchments !in s ==> r.None?
    ensures r.Some? <==> name in SubcatchmentNames(s)
    ensures r.Some? ==> r.value < |LinesOf(s, Subcatchments)| && NameOf(LinesOf(s, Subcatchments)[r.value]) == Some(name)
    ensures r.Some? ==> forall j :: 0 <= j < r.value ==> NameOf(LinesOf(s, Subcatchments)[j]) != Some(name)
  {
    var lines := LinesOf(s, Subcatchments);
    assert forall j :: 0 <= j < |lines| ==> (FieldIs(lines[j], SubcatchmentName, name) <==> NameOf(lines[j]) == Some(name));
    var r := if Subcatchments !in s then None else FindLine(lines, SubcatchmentName, name);
    if r.Some? then assert lines[r.value] in lines; r else r
  }

  /**
   * The field values of the subcatchment named `name`, or None when the
   * SUBCATCHMENTS section is absent or no record has that name.
   */
  function GetSubcatchmentDefinition(s: Sections, name: string): (r: Option<seq<Value>>)
    ensures Subcatchments !in s ==> r.None?
    ensures r.Some? <==> name in SubcatchmentNames(s)
    ensures r.Some? ==> 0 < |r.value| && r.value[SubcatchmentName] == Text(name)
    ensures r.Some? ==>
      exists j :: 0 <= j < |LinesOf(s, Subcatchments)| && LinesOf(s, Subcatchments)[j].values == r.value &&
        forall k :: 0 <= k < j ==> NameOf(LinesOf(s, Subcatchments)[k]) != Some(name)
  {
    match FindSubcatchment(s, name)
    case None => None
    case Some(j) => Some(LinesOf(s, Subcatchments)[j].values)
  }

  /** Lookup and the name set agree: a name is found exactly when some record carries it. */
  lemma {:induction false} NameFoundIffPresent(s: Sections, name: string)
    ensures GetSubcatchmentDefinition(s, name).Some? <==>
      exists j :: 0 <= j < |LinesOf(s, Subcatchments)| && FieldIs(LinesOf(s, Subcatchments)[j], SubcatchmentName, name)
  {
    var lines := LinesOf(s, Subcatchments);
    if Subcatchments !in s {
      assert lines == [];
    } else {
      var f := FindLine(lines, SubcatchmentName, name);
      assert GetSubcatchmentDefinition(s, name).Some? <==> f.Some?;
    }
  }
}
