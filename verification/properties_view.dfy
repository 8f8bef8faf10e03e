/** The properties page: the combined subject/competitor list, narrowed by the
    kind filter and the search box, then sorted by the chosen key. The filter and
    the sort option are the page's strings; values other than the offered ones
    reach the default branches. */
module PropertiesView {
  import opened Wrappers
  import opened Types
  import opened Strings
  import opened Sequences
  import opened StableSort

  /** The list before the search: subjects if the filter admits them, then
      competitors if it admits them. */
  function KindFiltered(filter: string, subjects: seq<SubjectProperty>, competitors: seq<CompetitorProperty>): (r: seq<Property>)
    ensures forall i :: 0 <= i < |r| ==> KindAdmitted(filter, r[i])
  {
    (if filter == "all" || filter == "subject" then Subjects(subjects) else [])
    + (if filter == "all" || filter == "competitor" then Competitors(competitors) else [])
  }

  lemma KindFilterCases(filter: string, subjects: seq<SubjectProperty>, competitors: seq<CompetitorProperty>)
    ensures var r := KindFiltered(filter, subjects, competitors);
      && (filter == "all" ==>
            |r| == |subjects| + |competitors|
            && (forall i :: 0 <= i < |subjects| ==> r[i] == Subject(subjects[i]))
            && (forall j :: 0 <= j < |competitors| ==> r[|subjects| + j] == Competitor(competitors[j])))
      && (filter == "subject" ==> |r| == |subjects| && forall i :: 0 <= i < |r| ==> r[i] == Subject(subjects[i]))
      && (filter == "competitor" ==> |r| == |competitors| && forall i :: 0 <= i < |r| ==> r[i] == Competitor(competitors[i]))
      && (filter !in {"all", "subject", "competitor"} ==> r == [])
  {
  }

  /** The search keeps a property when the lower-cased query occurs in its
      lower-cased name or in its lower-cased address. */
  function Matches(p: Property, query: string): (r: bool)
    ensures r <==> Occurs(ToLower(p.Name()), ToLower(query)) || Occurs(ToLower(p.Address()), ToLower(query))
  {
    IncludesIff(ToLower(p.Name()), ToLower(query));
    IncludesIff(ToLower(p.Address()), ToLower(query));
    Includes(ToLower(p.Name()), ToLower(query)) || Includes(ToLower(p.Address()), ToLower(query))
  }

  /** The search ignores the case of the query. */
  lemma SearchIgnoresQueryCase(p: Property, query: string)
    ensures Matches(p, query) <==> Matches(p, ToLower(query))
  {
    ToLowerIdempotent(query);
  }

  /** `Array.prototype.filter` with the search predicate. */
  function SearchFiltered(xs: seq<Property>, query: string): (r: seq<Property>)
    ensures IsSubsequence(r, xs)
    ensures forall i :: 0 <= i < |r| ==> Matches(r[i], query)
    ensures forall p :: multiset(r)[p] == if Matches(p, query) then multiset(xs)[p] else 0
  {
    if xs == [] then []
    else
      assert xs == [xs[0]] + xs[1..];
      var rest := SearchFiltered(xs[1..], query);
      if Matches(xs[0], query) then
        assert ([xs[0]] + rest)[1..] == rest;
        [xs[0]] + rest
      else rest
  }

  /** An empty search box keeps every property. */
  lemma {:induction false} EmptyQueryKeepsAll(xs: seq<Property>)
    ensures SearchFiltered(xs, "") == xs
    decreases |xs|
  {
    if xs != [] {
      EmptyQueryKeepsAll(xs[1..]);
      assert Matches(xs[0], "") by {
        assert ToLower("") == "";
      }
    }
  }

  /** `filteredProperties`. */
  function FilteredProperties(filter: string, query: string, subjects: seq<SubjectProperty>, competitors: seq<CompetitorProperty>): (r: seq<Property>)
    ensures IsSubsequence(r, Subjects(subjects) + Competitors(competitors))
    ensures forall i :: 0 <= i < |r| ==> Matches(r[i], query)
    ensures forall i :: 0 <= i < |r| ==> KindAdmitted(filter, r[i])
    ensures forall p ::
      multiset(r)[p] == if KindAdmitted(filter, p) && Matches(p, query) then multiset(Subjects(subjects) + Competitors(competitors))[p] else 0
  {
    var kinds := KindFiltered(filter, subjects, competitors);
    var r := SearchFiltered(kinds, query);
    KindFilteredIsSubsequence(filter, subjects, competitors);
    KindFilteredCounts(filter, subjects, competitors);
    SubsequenceTrans(r, kinds, Subjects(subjects) + Competitors(competitors));
    SearchKeepsKinds(filter, kinds, r);
    r
  }

  /** The kind filter lets subjects through for 'all' and 'subject', and
      competitors for 'all' and 'competitor'. */
  predicate KindAdmitted(filter: string, p: Property) {
    if p.Subject? then filter == "all" || filter == "subject"
    else filter == "all" || filter == "competitor"
  }

  lemma SearchKeepsKinds(filter: string, kinds: seq<Property>, r: seq<Property>)
    requires forall i :: 0 <= i < |kinds| ==> KindAdmitted(filter, kinds[i])
    requires IsSubsequence(r, kinds)
    ensures forall i :: 0 <= i < |r| ==> KindAdmitted(filter, r[i])
  {
    forall i | 0 <= i < |r| ensures KindAdmitted(filter, r[i]) {
      SubsequenceMembers(r, kinds, r[i]);
    }
  }

  lemma KindFilteredIsSubsequence(filter: string, subjects: seq<SubjectProperty>, competitors: seq<CompetitorProperty>)
    ensures forall i :: 0 <= i < |KindFiltered(filter, subjects, competitors)| ==> KindAdmitted(filter, KindFiltered(filter, subjects, competitors)[i])
    ensures IsSubsequence(KindFiltered(filter, subjects, competitors), Subjects(subjects) + Competitors(competitors))
  {
    var s, c := Subjects(subjects), Competitors(competitors);
    SubsequenceRefl(s);
    SubsequenceRefl(c);
    SubsequenceConcat(if filter == "all" || filter == "subject" then s else [], if filter == "all" || filter == "competitor" then c else [], s, c);
  }

  /** The kind filter keeps every admitted property, as often as it occurs. */
  lemma KindFilteredCounts(filter: string, subjects: seq<SubjectProperty>, competitors: seq<CompetitorProperty>)
    ensures forall p ::
      multiset(KindFiltered(filter, subjects, competitors))[p] == if KindAdmitted(filter, p) then multiset(Subjects(subjects) + Competitors(competitors))[p] else 0
  {
    var s, c := Subjects(subjects), Competitors(competitors);
    forall p ensures multiset(KindFiltered(filter, subjects, competitors))[p] ==
      if KindAdmitted(filter, p) then multiset(s + c)[p] else 0
    {
      if p.Subject? {
        assert p !in c;
      } else {
        assert p !in s;
      }
    }
  }

  /** `averageRent || 0`. */
  function RentOrZero(p: Property): real {
    match p.AverageRent()
    case Some(v) => v
    case None => 0.0
  }

  /** `occupancyRate || 0`. */
  function OccupancyOrZero(p: Property): real {
    match p.OccupancyRate()
    case Some(v) => v
    case None => 0.0
  }

  /** `localeCompare`, built from a total preorder `nameLe` on names that stands for
      the locale's collation. */
  function LocaleCompare(nameLe: (string, string) -> bool, a: string, b: string): (r: int)
    ensures -1 <= r <= 1
    ensures r <= 0 <==> nameLe(a, b)
    ensures r == 0 <==> nameLe(a, b) && nameLe(b, a)
  {
    if !nameLe(a, b) then 1 else if nameLe(b, a) then 0 else -1
  }

  /** The comparator passed to `sort`: a positive result puts `b` first. Names
      ascend by the collation and distances ascend; rents and occupancy rates
      descend, a missing value counting as 0; any other option ties everything. */
  function Compare(sortBy: string, nameLe: (string, string) -> bool, a: Property, b: Property): (r: real)
    ensures sortBy == "name" ==> (r <= 0.0 <==> nameLe(a.Name(), b.Name()))
    ensures sortBy == "distance" ==> (r <= 0.0 <==> a.DistanceToCampus() <= b.DistanceToCampus())
    ensures sortBy == "rent" ==> (r <= 0.0 <==> RentOrZero(a) >= RentOrZero(b))
    ensures sortBy == "occupancy" ==> (r <= 0.0 <==> OccupancyOrZero(a) >= OccupancyOrZero(b))
    ensures sortBy !in {"name", "distance", "rent", "occupancy"} ==> r == 0.0
  {
    if sortBy == "name" then LocaleCompare(nameLe, a.Name(), b.Name()) as real
    else if sortBy == "distance" then a.DistanceToCampus() - b.DistanceToCampus()
    else if sortBy == "rent" then RentOrZero(b) - RentOrZero(a)
    else if sortBy == "occupancy" then OccupancyOrZero(b) - OccupancyOrZero(a)
    else 0.0
  }

  /** "`a` may stay before `b`": the comparator does not return a positive number. */
  function Before(sortBy: string, nameLe: (string, string) -> bool): (Property, Property) -> bool {
    (a: Property, b: Property) => Compare(sortBy, nameLe, a, b) <= 0.0
  }

  lemma BeforeIsTotalPreorder(sortBy: string, nameLe: (string, string) -> bool)
    requires TotalPreorder(nameLe)
    ensures TotalPreorder(Before(sortBy, nameLe))
  {
    var le := Before(sortBy, nameLe);
    forall a, b, c | le(a, b) && le(b, c) ensures le(a, c) {
      if sortBy == "name" {
        assert nameLe(a.Name(), b.Name()) && nameLe(b.Name(), c.Name());
      }
    }
    forall a, b ensures le(a, b) || le(b, a) {
      if sortBy == "name" {
        assert nameLe(a.Name(), b.Name()) || nameLe(b.Name(), a.Name());
      }
    }
  }

  /** `sortedProperties`: a stable sort of a copy of the filtered list. */
  function SortedProperties(sortBy: string, nameLe: (string, string) -> bool, filtered: seq<Property>): (r: seq<Property>)
    requires TotalPreorder(nameLe)
    ensures multiset(r) == multiset(filtered)
    ensures sortBy == "name" ==> forall i, j :: 0 <= i < j < |r| ==> nameLe(r[i].Name(), r[j].Name())
    ensures sortBy == "distance" ==> forall i, j :: 0 <= i < j < |r| ==> r[i].DistanceToCampus() <= r[j].DistanceToCampus()
    ensures sortBy == "rent" ==> forall i, j :: 0 <= i < j < |r| ==> RentOrZero(r[i]) >= RentOrZero(r[j])
    ensures sortBy == "occupancy" ==> forall i, j :: 0 <= i < j < |r| ==> OccupancyOrZero(r[i]) >= OccupancyOrZero(r[j])
    ensures forall k :: Class(r, Before(sortBy, nameLe), k) == Class(filtered, Before(sortBy, nameLe), k)
    ensures sortBy !in {"name", "distance", "rent", "occupancy"} ==> r == filtered
  {
    BeforeIsTotalPreorder(sortBy, nameLe);
    SortIsStable(filtered, Before(sortBy, nameLe));
    UnknownKeyKeepsOrder(sortBy, nameLe, filtered);
    Sort(filtered, Before(sortBy, nameLe))
  }

  /** For an unrecognised option the comparator always returns 0, so the stable
      sort returns its input unchanged. */
  lemma UnknownKeyKeepsOrder(sortBy: string, nameLe: (string, string) -> bool, xs: seq<Property>)
    requires TotalPreorder(nameLe)
    ensures sortBy !in {"name", "distance", "rent", "occupancy"} ==> Sort(xs, Before(sortBy, nameLe)) == xs
  {
    BeforeIsTotalPreorder(sortBy, nameLe);
    if sortBy !in {"name", "distance", "rent", "occupancy"} {
      SortedIsFixed(xs, Before(sortBy, nameLe));
    }
  }
}
