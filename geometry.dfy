/**
 * The geometry index (subcatchment name to boundary polygon, built from the
 * POLYGONS records) and the resolution of map coordinates to a subcatchment.
 * A polygon is its ordered vertex list; point-in-polygon containment is a
 * parameter standing for the geometry library's strict `contains`.
 */
module Geometry {
  import opened Wrappers
  import opened SwmmInput
  import opened Parameters

  /** Strict point-in-polygon containment (inside, not merely on the boundary). */
  type Containment = (seq<Point>, Point) -> bool

  /**
   * Subcatchment name to polygon. `order` lists the names in the order the
   * mapping iterates them: their first appearance in the POLYGONS section.
   */
  datatype PolygonIndex = PolygonIndex(order: seq<string>, polygons: map<string, seq<Point>>)

  predicate ValidIndex(index: PolygonIndex) {
    && (forall k :: 0 <= k < |index.order| ==> index.order[k] in index.polygons)
    && (forall n :: n in index.polygons ==> n in index.order)
  }

  predicate AllWellFormedPolygons(lines: seq<Line>) {
    forall j :: 0 <= j < |lines| ==> WellFormedPolygon(lines[j])
  }

  function VertexName(l: Line): string
    requires WellFormedPolygon(l) && 0 < |l.values|
  {
    l.values[PolygonSubcat].text
  }

  function Vertex(l: Line): Point
    requires WellFormedPolygon(l) && 0 < |l.values|
  {
    Point(AsReal(l.values[PolygonX]), AsReal(l.values[PolygonY]))
  }

  /** A non-empty vertex record of subcatchment `name`. */
  predicate IsVertexOf(l: Line, name: string)
    requires WellFormedPolygon(l)
  {
    0 < |l.values| && VertexName(l) == name
  }

  /** The vertices recorded for `name`, in section order; blank records contribute nothing. */
  function VerticesOf(lines: seq<Line>, name: string): seq<Point>
    requires AllWellFormedPolygons(lines)
  {
    if |lines| == 0 then []
    else
      var last := lines[|lines| - 1];
      VerticesOf(lines[..|lines| - 1], name) + (if IsVertexOf(last, name) then [Vertex(last)] else [])
  }

  /** The names of the vertex records, each once, in order of first appearance. */
  function NamesInOrder(lines: seq<Line>): seq<string>
    requires AllWellFormedPolygons(lines)
  {
    if |lines| == 0 then []
    else
      var prev := NamesInOrder(lines[..|lines| - 1]);
      var last := lines[|lines| - 1];
      if 0 < |last.values| && VertexName(last) !in prev then prev + [VertexName(last)] else prev
  }

  /** The geometry index of a model: an absent POLYGONS section gives an empty index. */
  function PolygonsOf(s: Sections): (index: PolygonIndex)
    requires WellFormed(s)
    ensures Polygons !in s ==> index.order == [] && index.polygons == map[]
    ensures ValidIndex(index)
  {
    var lines := LinesOf(s, Polygons);
    var order := NamesInOrder(lines);
    PolygonIndex(order, map n | n in order :: VerticesOf(lines, n))
  }

  /** The index lists each name once. */
  lemma {:induction false} NamesInOrderDistinct(lines: seq<Line>)
    requires AllWellFormedPolygons(lines)
    ensures forall j, k :: 0 <= j < k < |NamesInOrder(lines)| ==> NamesInOrder(lines)[j] != NamesInOrder(lines)[k]
  {
    if |lines| > 0 {
      NamesInOrderDistinct(lines[..|lines| - 1]);
    }
  }

  /** The keys of the index are exactly the names that appear on non-empty vertex records. */
  lemma {:induction false} NamesInOrderAreNames(lines: seq<Line>, name: string)
    requires AllWellFormedPolygons(lines)
    ensures name in NamesInOrder(lines) <==> exists j :: 0 <= j < |lines| && IsVertexOf(lines[j], name)
  {
    if |lines| > 0 {
      var init := lines[..|lines| - 1];
      NamesInOrderAreNames(init, name);
      if name in NamesInOrder(lines) && name !in NamesInOrder(init) {
        assert IsVertexOf(lines[|lines| - 1], name);
      }
      if exists j :: 0 <= j < |init| && IsVertexOf(init[j], name) {
        assert name in NamesInOrder(init);
      }
      assert forall j :: 0 <= j < |init| ==> init[j] == lines[j];
    }
  }

  /** A name that never appears has no vertices. */
  lemma {:induction false} AbsentNameHasNoVertices(lines: seq<Line>, name: string)
    requires AllWellFormedPolygons(lines)
    requires name !in NamesInOrder(lines)
    ensures VerticesOf(lines, name) == []
  {
    if |lines| > 0 {
      AbsentNameHasNoVertices(lines[..|lines| - 1], name);
    }
  }

  /** Grouping keeps section order: the vertices of a concatenation are the concatenated vertices. */
  lemma {:induction false} VerticesOfConcat(a: seq<Line>, b: seq<Line>, name: string)
    requires AllWellFormedPolygons(a) && AllWellFormedPolygons(b)
    ensures AllWellFormedPolygons(a + b)
    ensures VerticesOf(a + b, name) == VerticesOf(a, name) + VerticesOf(b, name)
  {
    assert AllWellFormedPolygons(a + b) by {
      forall j | 0 <= j < |a + b| ensures WellFormedPolygon((a + b)[j]) {
        if j >= |a| { assert (a + b)[j] == b[j - |a|]; }
      }
    }
    if |b| > 0 {
      var initB := b[..|b| - 1];
      assert (a + b)[..|a + b| - 1] == a + initB;
      assert (a + b)[|a + b| - 1] == b[|b| - 1];
      VerticesOfConcat(a, initB, name);
    } else {
      assert a + b == a;
    }
  }

  /**
   * The index holds exactly the subcatchments that have a vertex record, each
   * once, each with exactly its vertices in section order.
   */
  lemma PolygonsOfGroups(s: Sections, name: string)
    requires WellFormed(s)
    ensures var index := PolygonsOf(s);
      var lines := LinesOf(s, Polygons);
      && (name in index.polygons <==> exists j :: 0 <= j < |lines| && IsVertexOf(lines[j], name))
      && (name in index.polygons ==> index.polygons[name] == VerticesOf(lines, name))
      && (forall j, k :: 0 <= j < k < |index.order| ==> index.order[j] != index.order[k])
  {
    NamesInOrderAreNames(LinesOf(s, Polygons), name);
    NamesInOrderDistinct(LinesOf(s, Polygons));
  }

  /** Taking one more record: its vertex joins its subcatchment's list, and a new name joins the order. */
  lemma GroupingStep(lines: seq<Line>, i: nat)
    requires i < |lines| && AllWellFormedPolygons(lines)
    ensures AllWellFormedPolygons(lines[..i]) && AllWellFormedPolygons(lines[..i + 1])
    ensures var last := lines[i];
      NamesInOrder(lines[..i + 1]) ==
        if 0 < |last.values| && VertexName(last) !in NamesInOrder(lines[..i]) then NamesInOrder(lines[..i]) + [VertexName(last)]
        else NamesInOrder(lines[..i])
    ensures forall n ::
      VerticesOf(lines[..i + 1], n) == VerticesOf(lines[..i], n) + (if IsVertexOf(lines[i], n) then [Vertex(lines[i])] else [])
  {
    assert lines[..i + 1][..i] == lines[..i];
    assert lines[..i + 1][i] == lines[i];
  }

  /** Adding record `i`'s vertex to the grouping of the records before it groups the records up to it. */
  lemma GroupedVertices(lines: seq<Line>, i: nat, grouped: map<string, seq<Point>>, polygons: map<string, seq<Point>>)
    requires i < |lines| && AllWellFormedPolygons(lines)
    requires AllWellFormedPolygons(lines[..i])
    requires forall n :: n in grouped <==> n in NamesInOrder(lines[..i])
    requires forall n :: n in grouped ==> grouped[n] == VerticesOf(lines[..i], n)
    requires var last := lines[i];
      polygons ==
        if |last.values| == 0 then grouped
        else if VertexName(last) in grouped then grouped[VertexName(last) := grouped[VertexName(last)] + [Vertex(last)]]
        else grouped[VertexName(last) := [Vertex(last)]]
    ensures AllWellFormedPolygons(lines[..i + 1])
    ensures NamesInOrder(lines[..i + 1]) ==
      if 0 < |lines[i].values| && VertexName(lines[i]) !in grouped then NamesInOrder(lines[..i]) + [VertexName(lines[i])]
      else NamesInOrder(lines[..i])
    ensures forall n :: n in polygons <==> n in NamesInOrder(lines[..i + 1])
    ensures forall n :: n in polygons ==> polygons[n] == VerticesOf(lines[..i + 1], n)
  {
    GroupingStep(lines, i);
    forall n | n in polygons ensures polygons[n] == VerticesOf(lines[..i + 1], n) {
      if IsVertexOf(lines[i], n) && n !in grouped {
        AbsentNameHasNoVertices(lines[..i], n);
      }
    }
  }

  /** Groups the POLYGONS records by subcatchment, keeping section order. */
  method ExtractSubcatchmentPolygons(s: Sections) returns (index: PolygonIndex)
    requires WellFormed(s)
    ensures index == PolygonsOf(s)
  {
    var lines := LinesOf(s, Polygons);
    var order: seq<string> := [];
    var polygons: map<string, seq<Point>> := map[];
    var i := 0;
    while i < |lines|
      invariant 0 <= i <= |lines|
      invariant AllWellFormedPolygons(lines[..i])
      invariant order == NamesInOrder(lines[..i])
      invariant forall n :: n in polygons <==> n in order
      invariant forall n :: n in polygons ==> polygons[n] == VerticesOf(lines[..i], n)
    {
      var values := lines[i].values;
      ghost var grouped := polygons;
      if 0 < |values| {
        var name := values[PolygonSubcat].text;
        var vertex := Point(AsReal(values[PolygonX]), AsReal(values[PolygonY]));
        if name in polygons {
          polygons := polygons[name := polygons[name] + [vertex]];
        } else {
          polygons := polygons[name := [vertex]];
          order := order + [name];
        }
      }
      GroupedVertices(lines, i, grouped, polygons);
      i := i + 1;
    }
    assert lines[..i] == lines;
    index := PolygonIndex(order, polygons);
  }

  /** Position in `index.order`, from `k` on, of the first polygon that contains `point`. */
  function FirstContaining(index: PolygonIndex, k: nat, point: Point, contains: Containment): (r: Option<nat>)
    requires ValidIndex(index) && k <= |index.order|
    ensures r.Some? ==> k <= r.value < |index.order| && contains(index.polygons[index.order[r.value]], point)
    ensures r.Some? ==> forall j :: k <= j < r.value ==> !contains(index.polygons[index.order[j]], point)
    ensures r.None? ==> forall j :: k <= j < |index.order| ==> !contains(index.polygons[index.order[j]], point)
    decreases |index.order| - k
  {
    if k == |index.order| then None
    else if contains(index.polygons[index.order[k]], point) then Some(k)
    else FirstContaining(index, k + 1, point, contains)
  }

  /**
   * The subcatchment whose polygon contains `point`, searching the index in
   * its iteration order; an error carrying the coordinates when none does.
   */
  function SubcatchmentFromMapCoords(point: Point, index: PolygonIndex, contains: Containment): (r: Result<string, Error>)
    requires ValidIndex(index)
    ensures r.Ok? ==> r.value in index.order && r.value in index.polygons && contains(index.polygons[r.value], point)
    ensures r.Err? ==> r.error == PlacementError(point.x, point.y)
    ensures r.Err? <==> forall n :: n in index.polygons ==> !contains(index.polygons[n], point)
  {
    match FirstContaining(index, 0, point, contains)
    case Some(k) => Ok(index.order[k])
    case None =>
      assert forall n :: n in index.polygons ==> !contains(index.polygons[n], point) by {
        forall n | n in index.polygons ensures !contains(index.polygons[n], point) {
          var j :| 0 <= j < |index.order| && index.order[j] == n;
        }
      }
      Err(PlacementError(point.x, point.y))
  }

  /** Whatever the iteration order, a point inside exactly one polygon resolves to that polygon's subcatchment. */
  lemma UniqueContainerResolves(point: Point, index: PolygonIndex, contains: Containment, name: string)
    requires ValidIndex(index)
    requires name in index.polygons && contains(index.polygons[name], point)
    requires forall n :: n in index.polygons && n != name ==> !contains(index.polygons[n], point)
    ensures SubcatchmentFromMapCoords(point, index, contains) == Ok(name)
  {
  }
}
