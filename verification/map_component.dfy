/** The map widget: the bounding box of every marker, folded with `Math.min` /
    `Math.max` from an infinite seed, its midpoint as the map centre, and the
    marker-click state. */
module MapComponent {
  import opened Wrappers
  import opened Types

  /** A JavaScript number as the fold sees it: finite, or one of the infinities
      of the seed. */
  datatype Ext = NegInf | Fin(v: real) | PosInf

  predicate Le(a: Ext, b: Ext) {
    match (a, b)
    case (NegInf, _) => true
    case (_, PosInf) => true
    case (Fin(x), Fin(y)) => x <= y
    case _ => false
  }

  /** `Math.min`. */
  function Min(a: Ext, b: Ext): Ext {
    if Le(a, b) then a else b
  }

  /** `Math.max`. */
  function Max(a: Ext, b: Ext): Ext {
    if Le(a, b) then b else a
  }

  datatype Bounds = Bounds(minLat: Ext, maxLat: Ext, minLng: Ext, maxLng: Ext)

  /** The `reduce` seed: minima at +Infinity, maxima at -Infinity. */
  const Seed := Bounds(PosInf, NegInf, PosInf, NegInf)

  /** `allCoordinates`: subjects, then competitors, then universities. */
  function AllCoordinates(subjects: seq<SubjectProperty>, competitors: seq<CompetitorProperty>, universities: seq<University>): (r: seq<Coordinates>)
    ensures |r| == |subjects| + |competitors| + |universities|
  {
    seq(|subjects|, i requires 0 <= i < |subjects| => subjects[i].coordinates)
    + seq(|competitors|, i requires 0 <= i < |competitors| => competitors[i].coordinates)
    + seq(|universities|, i requires 0 <= i < |universities| => universities[i].coordinates)
  }

  /** One step of the `reduce` callback. */
  function Step(acc: Bounds, c: Coordinates): Bounds {
    Bounds(
      Min(acc.minLat, Fin(c.latitude)),
      Max(acc.maxLat, Fin(c.latitude)),
      Min(acc.minLng, Fin(c.longitude)),
      Max(acc.maxLng, Fin(c.longitude)))
  }

  /** `reduce` from `acc` over `cs`, left to right. Each bound is the better of its
      value in `acc` and every point, and is attained by `acc` or by a point. */
  function Fold(acc: Bounds, cs: seq<Coordinates>): (r: Bounds)
    ensures forall c :: c in cs ==> Le(r.minLat, Fin(c.latitude)) && Le(Fin(c.latitude), r.maxLat)
    ensures forall c :: c in cs ==> Le(r.minLng, Fin(c.longitude)) && Le(Fin(c.longitude), r.maxLng)
    ensures Le(r.minLat, acc.minLat) && Le(acc.maxLat, r.maxLat)
    ensures Le(r.minLng, acc.minLng) && Le(acc.maxLng, r.maxLng)
    ensures r.minLat == acc.minLat || exists c :: c in cs && r.minLat == Fin(c.latitude)
    ensures r.maxLat == acc.maxLat || exists c :: c in cs && r.maxLat == Fin(c.latitude)
    ensures r.minLng == acc.minLng || exists c :: c in cs && r.minLng == Fin(c.longitude)
    ensures r.maxLng == acc.maxLng || exists c :: c in cs && r.maxLng == Fin(c.longitude)
    decreases |cs|
  {
    if cs == [] then acc
    else
      assert forall c :: c in cs[1..] ==> c in cs;
      Fold(Step(acc, cs[0]), cs[1..])
  }

  /** `bounds`. An empty list leaves the seed as it is; otherwise the four bounds
      are finite, contain every point, and each is the coordinate of some point. */
  function BoundsOf(cs: seq<Coordinates>): (r: Bounds)
    ensures cs == [] ==> r == Seed
    ensures cs != [] ==> r.minLat.Fin? && r.maxLat.Fin? && r.minLng.Fin? && r.maxLng.Fin?
    ensures forall c :: c in cs ==>
      Le(r.minLat, Fin(c.latitude)) && Le(Fin(c.latitude), r.maxLat)
      && Le(r.minLng, Fin(c.longitude)) && Le(Fin(c.longitude), r.maxLng)
    ensures cs != [] ==>
      (exists c :: c in cs && r.minLat == Fin(c.latitude))
      && (exists c :: c in cs && r.maxLat == Fin(c.latitude))
      && (exists c :: c in cs && r.minLng == Fin(c.longitude))
      && (exists c :: c in cs && r.maxLng == Fin(c.longitude))
  {
    var r := Fold(Seed, cs);
    assert cs != [] ==> cs[0] in cs;
    r
  }

  /** The box does not depend on the order of the points, so listing subjects,
      competitors and universities in another order gives the same box. */
  lemma BoundsIgnoreOrder(xs: seq<Coordinates>, ys: seq<Coordinates>)
    requires multiset(xs) == multiset(ys)
    ensures BoundsOf(xs) == BoundsOf(ys)
  {
    forall c ensures c in xs <==> c in ys {
      assert c in xs <==> c in multiset(xs);
      assert c in ys <==> c in multiset(ys);
    }
    if xs == [] {
      assert |ys| == |multiset(ys)| == |multiset(xs)| == 0;
    } else {
      assert ys != [] by { assert xs[0] in ys; }
      SameMinLat(xs, ys);
      SameMaxLat(xs, ys);
      SameMinLng(xs, ys);
      SameMaxLng(xs, ys);
    }
  }

  lemma SameMinLat(xs: seq<Coordinates>, ys: seq<Coordinates>)
    requires xs != [] && ys != [] && forall c :: c in xs <==> c in ys
    ensures BoundsOf(xs).minLat == BoundsOf(ys).minLat
  {
    var a, b := BoundsOf(xs), BoundsOf(ys);
    var c1 :| c1 in xs && a.minLat == Fin(c1.latitude);
    var c2 :| c2 in ys && b.minLat == Fin(c2.latitude);
    assert Le(b.minLat, a.minLat) && Le(a.minLat, b.minLat);
  }

  lemma SameMaxLat(xs: seq<Coordinates>, ys: seq<Coordinates>)
    requires xs != [] && ys != [] && forall c :: c in xs <==> c in ys
    ensures BoundsOf(xs).maxLat == BoundsOf(ys).maxLat
  {
    var a, b := BoundsOf(xs), BoundsOf(ys);
    var c1 :| c1 in xs && a.maxLat == Fin(c1.latitude);
    var c2 :| c2 in ys && b.maxLat == Fin(c2.latitude);
    assert Le(b.maxLat, a.maxLat) && Le(a.maxLat, b.maxLat);
  }

  lemma SameMinLng(xs: seq<Coordinates>, ys: seq<Coordinates>)
    requires xs != [] && ys != [] && forall c :: c in xs <==> c in ys
    ensures BoundsOf(xs).minLng == BoundsOf(ys).minLng
  {
    var a, b := BoundsOf(xs), BoundsOf(ys);
    var c1 :| c1 in xs && a.minLng == Fin(c1.longitude);
    var c2 :| c2 in ys && b.minLng == Fin(c2.longitude);
    assert Le(b.minLng, a.minLng) && Le(a.minLng, b.minLng);
  }

  lemma SameMaxLng(xs: seq<Coordinates>, ys: seq<Coordinates>)
    requires xs != [] && ys != [] && forall c :: c in xs <==> c in ys
    ensures BoundsOf(xs).maxLng == BoundsOf(ys).maxLng
  {
    var a, b := BoundsOf(xs), BoundsOf(ys);
    var c1 :| c1 in xs && a.maxLng == Fin(c1.longitude);
    var c2 :| c2 in ys && b.maxLng == Fin(c2.longitude);
    assert Le(b.maxLng, a.maxLng) && Le(a.maxLng, b.maxLng);
  }

  /** `center`: the midpoint of the box, or None where JavaScript gets NaN or an
      infinity (an infinite bound, as for an empty list). */
  function Center(b: Bounds): (r: Option<Coordinates>)
    ensures r.Some? <==> b.minLat.Fin? && b.maxLat.Fin? && b.minLng.Fin? && b.maxLng.Fin?
    ensures r.Some? ==> 2.0 * r.value.latitude == b.minLat.v + b.maxLat.v
    ensures r.Some? ==> 2.0 * r.value.longitude == b.minLng.v + b.maxLng.v
  {
    if b.minLat.Fin? && b.maxLat.Fin? && b.minLng.Fin? && b.maxLng.Fin? then
      Some(Coordinates((b.minLat.v + b.maxLat.v) / 2.0, (b.minLng.v + b.maxLng.v) / 2.0))
    else None
  }

  /** The centre of a non-empty list of points lies inside their box; an empty
      list has no centre. */
  lemma CenterInsideBounds(cs: seq<Coordinates>)
    ensures var b := BoundsOf(cs);
      cs == [] <==> Center(b).None?
    ensures var b := BoundsOf(cs);
      Center(b).Some? ==>
        b.minLat.v <= Center(b).value.latitude <= b.maxLat.v
        && b.minLng.v <= Center(b).value.longitude <= b.maxLng.v
  {
    if cs != [] {
      var b := BoundsOf(cs);
      assert Le(b.minLat, Fin(cs[0].latitude)) && Le(Fin(cs[0].latitude), b.maxLat);
      assert Le(b.minLng, Fin(cs[0].longitude)) && Le(Fin(cs[0].longitude), b.maxLng);
    }
  }

  /** The markers in the order they are drawn. */
  function Markers(subjects: seq<SubjectProperty>, competitors: seq<CompetitorProperty>, universities: seq<University>): seq<Entity> {
    SubjectEntities(subjects) + CompetitorEntities(competitors) + UniversityEntities(universities)
  }

  lemma MarkersAtCoordinates(subjects: seq<SubjectProperty>, competitors: seq<CompetitorProperty>, universities: seq<University>)
    ensures var ms, cs := Markers(subjects, competitors, universities), AllCoordinates(subjects, competitors, universities);
      |ms| == |cs| && forall i :: 0 <= i < |ms| ==> ms[i].Location() == cs[i]
  {
  }

  /** What a click reports through `onSelectProperty`. */
  datatype Notice = Notice(id: string, kind: string)

  /** The map widget's own state: the id of the last marker clicked. */
  class MapState {
    var selectedMarker: Option<string>

    constructor ()
      ensures selectedMarker == None
    {
      selectedMarker := None;
    }

    /** A click on the marker of `e`. The click is reported only when the page
        passed a handler. */
    method Click(e: Entity, hasHandler: bool) returns (notice: Option<Notice>)
      modifies this
      ensures selectedMarker == Some(e.Id())
      ensures notice == if hasHandler then Some(Notice(e.Id(), e.KindTag())) else None
    {
      selectedMarker := Some(e.Id());
      if hasHandler {
        notice := Some(Notice(e.Id(), e.KindTag()));
      } else {
        notice := None;
      }
    }
  }
}
