/** The record shapes the pages work on. Fields that are only displayed (images,
    management company, property type and class, status, years, amenities,
    calendars, logos) are not carried. */
module Types {
  import opened Wrappers

  datatype Coordinates = Coordinates(latitude: real, longitude: real)

  /** A property of the portfolio: rent and occupancy are always recorded. */
  datatype SubjectProperty = SubjectProperty(
    id: string,
    name: string,
    address: string,
    coordinates: Coordinates,
    totalUnits: int,
    totalBeds: int,
    distanceToCampus: real,
    averageRent: real,
    occupancyRate: real,
    preleaseRate: real)

  /** A competing property: rent, occupancy and pre-lease rate may be missing. */
  datatype CompetitorProperty = CompetitorProperty(
    id: string,
    name: string,
    address: string,
    coordinates: Coordinates,
    totalUnits: int,
    totalBeds: int,
    distanceToCampus: real,
    competitiveSetId: string,
    marketPosition: int,
    averageRent: Option<real>,
    occupancyRate: Option<real>,
    preleaseRate: Option<real>)

  datatype University = University(
    id: string,
    name: string,
    address: string,
    coordinates: Coordinates,
    totalEnrollment: int,
    undergraduateEnrollment: int,
    graduateEnrollment: int)

  /** An element of the combined property list: a subject or a competitor. */
  datatype Property = Subject(subject: SubjectProperty) | Competitor(competitor: CompetitorProperty)
  {
    function Id(): string {
      match this
      case Subject(p) => p.id
      case Competitor(p) => p.id
    }
    function Name(): string {
      match this
      case Subject(p) => p.name
      case Competitor(p) => p.name
    }
    function Address(): string {
      match this
      case Subject(p) => p.address
      case Competitor(p) => p.address
    }
    function Location(): Coordinates {
      match this
      case Subject(p) => p.coordinates
      case Competitor(p) => p.coordinates
    }
    function DistanceToCampus(): real {
      match this
      case Subject(p) => p.distanceToCampus
      case Competitor(p) => p.distanceToCampus
    }
    /** `averageRent`, absent on a competitor when not recorded. */
    function AverageRent(): Option<real> {
      match this
      case Subject(p) => Some(p.averageRent)
      case Competitor(p) => p.averageRent
    }
    function OccupancyRate(): Option<real> {
      match this
      case Subject(p) => Some(p.occupancyRate)
      case Competitor(p) => p.occupancyRate
    }
  }

  /** Anything that has a marker on the map. */
  datatype Entity = PropertyEntity(property: Property) | UniversityEntity(university: University)
  {
    function Id(): string {
      match this
      case PropertyEntity(p) => p.Id()
      case UniversityEntity(u) => u.id
    }
    function Location(): Coordinates {
      match this
      case PropertyEntity(p) => p.Location()
      case UniversityEntity(u) => u.coordinates
    }
    /** The kind tag the map reports for a marker of this entity. */
    function KindTag(): string {
      match this
      case PropertyEntity(Subject(_)) => "subject"
      case PropertyEntity(Competitor(_)) => "competitor"
      case UniversityEntity(_) => "university"
    }
  }

  function SubjectEntities(subjects: seq<SubjectProperty>): (r: seq<Entity>)
    ensures |r| == |subjects|
    ensures forall i :: 0 <= i < |r| ==> r[i] == PropertyEntity(Subject(subjects[i]))
  {
    seq(|subjects|, i requires 0 <= i < |subjects| => PropertyEntity(Subject(subjects[i])))
  }

  function CompetitorEntities(competitors: seq<CompetitorProperty>): (r: seq<Entity>)
    ensures |r| == |competitors|
    ensures forall i :: 0 <= i < |r| ==> r[i] == PropertyEntity(Competitor(competitors[i]))
  {
    seq(|competitors|, i requires 0 <= i < |competitors| => PropertyEntity(Competitor(competitors[i])))
  }

  function UniversityEntities(universities: seq<University>): (r: seq<Entity>)
    ensures |r| == |universities|
    ensures forall i :: 0 <= i < |r| ==> r[i] == UniversityEntity(universities[i])
  {
    seq(|universities|, i requires 0 <= i < |universities| => UniversityEntity(universities[i]))
  }

  /** Subjects as elements of the combined property list. */
  function Subjects(subjects: seq<SubjectProperty>): (r: seq<Property>)
    ensures |r| == |subjects| && forall i :: 0 <= i < |r| ==> r[i] == Subject(subjects[i])
  {
    seq(|subjects|, i requires 0 <= i < |subjects| => Subject(subjects[i]))
  }

  function Competitors(competitors: seq<CompetitorProperty>): (r: seq<Property>)
    ensures |r| == |competitors| && forall i :: 0 <= i < |r| ==> r[i] == Competitor(competitors[i])
  {
    seq(|competitors|, i requires 0 <= i < |competitors| => Competitor(competitors[i]))
  }

  /** A JavaScript truthiness test on a selected id: `null` and `''` are falsy. */
  predicate Truthy(id: Option<string>) {
    id.Some? && id.value != ""
  }
}
