/** The application shell: the active view chosen in the navigation bar, the id
    of the property whose details are open, and what the header and the main
    area show for that state. */
module App {
  import opened Wrappers
  import opened Types
  import opened Sequences

  /** An entry of the navigation bar: the view it selects and its label. */
  datatype NavItem = NavItem(id: string, title: string)

  const NavItems: seq<NavItem> := [
    NavItem("dashboard", "Dashboard"),
    NavItem("properties", "Properties"),
    NavItem("map", "Map View"),
    NavItem("universities", "Universities")
  ]

  /** The view is one the navigation bar offers. */
  predicate IsNavView(view: string) {
    exists i :: 0 <= i < |NavItems| && NavItems[i].id == view
  }

  lemma NavViewsOffered()
    ensures IsNavView("dashboard") && IsNavView("properties") && IsNavView("map") && IsNavView("universities")
  {
    assert NavItems[0].id == "dashboard" && NavItems[1].id == "properties";
    assert NavItems[2].id == "map" && NavItems[3].id == "universities";
  }

  /** `getPropertyById`: the first subject with the id, or else the first
      competitor with it. */
  function PropertyById(id: string, subjects: seq<SubjectProperty>, competitors: seq<CompetitorProperty>): (r: Option<Property>)
    ensures r.Some? ==> r.value.Id() == id
    ensures r.Some? && r.value.Competitor? ==> forall p :: p in subjects ==> p.id != id
    ensures r.None? <==> (forall p :: p in subjects ==> p.id != id) && (forall p :: p in competitors ==> p.id != id)
  {
    match FindIndex(subjects, (p: SubjectProperty) => p.id == id)
    case Some(i) => Some(Subject(subjects[i]))
    case None =>
      match FindIndex(competitors, (p: CompetitorProperty) => p.id == id)
      case Some(j) => Some(Competitor(competitors[j]))
      case None => None
  }

  /** The lookup is the first property with the id in the combined list the
      properties page shows: subjects first, then competitors. */
  lemma PropertyByIdInCombinedList(id: string, subjects: seq<SubjectProperty>, competitors: seq<CompetitorProperty>)
    ensures var all := Subjects(subjects) + Competitors(competitors);
      PropertyById(id, subjects, competitors) ==
        match FindIndex(all, (p: Property) => p.Id() == id)
        case None => None
        case Some(k) => Some(all[k])
  {
    var ss, cs := Subjects(subjects), Competitors(competitors);
    var all := ss + cs;
    var hasId := (p: Property) => p.Id() == id;
    match FindIndex(subjects, (p: SubjectProperty) => p.id == id)
    case Some(i) =>
      FindIndexFirst(all, hasId, i);
    case None =>
      assert forall k :: 0 <= k < |ss| ==> !hasId(all[k]);
      match FindIndex(competitors, (p: CompetitorProperty) => p.id == id)
      case Some(j) =>
        assert all[|ss| + j] == Competitor(competitors[j]);
        forall k | 0 <= k < |ss| + j ensures !hasId(all[k]) {
          if k >= |ss| {
            assert all[k] == Competitor(competitors[k - |ss|]);
          }
        }
        FindIndexFirst(all, hasId, |ss| + j);
      case None =>
        forall k | 0 <= k < |all| ensures !hasId(all[k]) {
          if k >= |ss| {
            assert all[k] == Competitor(competitors[k - |ss|]);
          }
        }
  }

  /** `getHeaderTitle`: "Property Details" while a property is open, otherwise
      the navigation bar's label for the view, and "Dashboard" for a view the bar
      does not offer. */
  function HeaderTitle(activeView: string, selected: Option<string>): (r: string)
    ensures Truthy(selected) ==> r == "Property Details"
    ensures !Truthy(selected) ==>
      forall i :: 0 <= i < |NavItems| && NavItems[i].id == activeView ==> r == NavItems[i].title
    ensures !Truthy(selected) && !IsNavView(activeView) ==> r == "Dashboard"
  {
    NavViewsOffered();
    if Truthy(selected) then "Property Details"
    else if activeView == "dashboard" then "Dashboard"
    else if activeView == "properties" then "Properties"
    else if activeView == "map" then "Map View"
    else if activeView == "universities" then "Universities"
    else "Dashboard"
  }

  /** `getHeaderSubtitle`. It is empty exactly when no property is open and the
      view is not one the navigation bar offers. */
  function HeaderSubtitle(activeView: string, selected: Option<string>): (r: string)
    ensures Truthy(selected) ==> r == "View detailed information about this property"
    ensures |r| == 0 <==> !Truthy(selected) && !IsNavView(activeView)
  {
    NavViewsOffered();
    if Truthy(selected) then "View detailed information about this property"
    else if activeView == "dashboard" then "Overview of your student housing portfolio"
    else if activeView == "properties" then "Manage and analyze your student housing properties"
    else if activeView == "map" then "Visualize properties and universities on the map"
    else if activeView == "universities" then "Explore universities and student enrollment data"
    else ""
  }

  /** What the main area renders; `Blank` is React's `null`. */
  datatype Content =
    | Blank
    | PropertyDetailsPage(property: Property)
    | DashboardPage
    | PropertiesPage
    | MapViewPage
    | UniversitiesPage

  /** `renderContent`. With a property open it shows that property's details, or
      nothing when no property has the id; otherwise the page of the view, and
      the dashboard for a view the navigation bar does not offer. */
  function RenderContent(activeView: string, selected: Option<string>, subjects: seq<SubjectProperty>, competitors: seq<CompetitorProperty>): (r: Content)
    ensures Truthy(selected) ==> (r.Blank? <==> PropertyById(selected.value, subjects, competitors).None?)
    ensures Truthy(selected) <==> r.Blank? || r.PropertyDetailsPage?
    ensures r.PropertyDetailsPage? ==> r.property.Id() == selected.value
    ensures Truthy(selected) && PropertyById(selected.value, subjects, competitors).Some? ==>
      r == PropertyDetailsPage(PropertyById(selected.value, subjects, competitors).value)
    ensures !Truthy(selected) ==> PageTitle(r) == HeaderTitle(activeView, selected)
    ensures !Truthy(selected) && !IsNavView(activeView) ==> r == DashboardPage
  {
    NavViewsOffered();
    if Truthy(selected) then
      match PropertyById(selected.value, subjects, competitors)
      case None => Blank
      case Some(p) => PropertyDetailsPage(p)
    else if activeView == "dashboard" then DashboardPage
    else if activeView == "properties" then PropertiesPage
    else if activeView == "map" then MapViewPage
    else if activeView == "universities" then UniversitiesPage
    else DashboardPage
  }

  /** The title a rendered page stands under. */
  function PageTitle(c: Content): string {
    match c
    case Blank => "Property Details"
    case PropertyDetailsPage(_) => "Property Details"
    case DashboardPage => "Dashboard"
    case PropertiesPage => "Properties"
    case MapViewPage => "Map View"
    case UniversitiesPage => "Universities"
  }

  /** The header always names what the main area shows. */
  lemma HeaderNamesContent(activeView: string, selected: Option<string>, subjects: seq<SubjectProperty>, competitors: seq<CompetitorProperty>)
    ensures HeaderTitle(activeView, selected) == PageTitle(RenderContent(activeView, selected, subjects, competitors))
  {
    if !Truthy(selected) && IsNavView(activeView) {
      var i :| 0 <= i < |NavItems| && NavItems[i].id == activeView;
    }
  }

  /** Each entry of the navigation bar leads to its own page, titled with the
      entry's label. */
  lemma NavItemsReachDistinctPages(subjects: seq<SubjectProperty>, competitors: seq<CompetitorProperty>)
    ensures forall i :: 0 <= i < |NavItems| ==>
      PageTitle(RenderContent(NavItems[i].id, None, subjects, competitors)) == NavItems[i].title
    ensures forall i, j :: 0 <= i < j < |NavItems| ==>
      RenderContent(NavItems[i].id, None, subjects, competitors) != RenderContent(NavItems[j].id, None, subjects, competitors)
  {
  }

  /** The application state. */
  class AppState {
    var activeView: string
    var selectedPropertyId: Option<string>

    constructor ()
      ensures activeView == "dashboard" && selectedPropertyId == None
      ensures Title() == "Dashboard"
    {
      activeView := "dashboard";
      selectedPropertyId := None;
    }

    function Title(): string
      reads this
    {
      HeaderTitle(activeView, selectedPropertyId)
    }

    function Content(subjects: seq<SubjectProperty>, competitors: seq<CompetitorProperty>): Content
      reads this
    {
      RenderContent(activeView, selectedPropertyId, subjects, competitors)
    }

    /** `handleViewPropertyDetails`: opens a property; the view is kept. */
    method ViewPropertyDetails(id: string)
      modifies this
      ensures selectedPropertyId == Some(id) && activeView == old(activeView)
      ensures id != "" ==> Title() == "Property Details"
    {
      selectedPropertyId := Some(id);
    }

    /** `handleBackToProperties`: closes the property and keeps the current
        view, whichever that is. */
    method BackToProperties()
      modifies this
      ensures selectedPropertyId == None && activeView == old(activeView)
      ensures forall subjects, competitors :: !Content(subjects, competitors).Blank? && !Content(subjects, competitors).PropertyDetailsPage?
    {
      selectedPropertyId := None;
    }

    /** `setActiveView`, passed to the navigation bar as is: the open property,
        if any, stays open (see `NavigationKeepsDetailsOpen`). */
    method Navigate(view: string)
      modifies this
      ensures activeView == view && selectedPropertyId == old(selectedPropertyId)
      ensures Truthy(old(selectedPropertyId)) ==> Title() == "Property Details"
    {
      activeView := view;
    }
  }

  /** With a property open, choosing any entry of the navigation bar leaves the
      details page (or the blank area) on screen under "Property Details", while
      the bar marks the new entry as active. */
  lemma NavigationKeepsDetailsOpen(view: string, id: string, subjects: seq<SubjectProperty>, competitors: seq<CompetitorProperty>)
    requires id != ""
    ensures HeaderTitle(view, Some(id)) == "Property Details"
    ensures var c := RenderContent(view, Some(id), subjects, competitors);
      c.Blank? || c.PropertyDetailsPage?
    ensures IsNavView(view) ==> HeaderTitle(view, None) != "Property Details"
  {
    if IsNavView(view) {
      var i :| 0 <= i < |NavItems| && NavItems[i].id == view;
    }
  }

  /** An empty id is falsy: it selects nothing, exactly like `null`. */
  lemma EmptyIdActsAsNone(view: string, subjects: seq<SubjectProperty>, competitors: seq<CompetitorProperty>)
    ensures HeaderTitle(view, Some("")) == HeaderTitle(view, None)
    ensures HeaderSubtitle(view, Some("")) == HeaderSubtitle(view, None)
    ensures RenderContent(view, Some(""), subjects, competitors) == RenderContent(view, None, subjects, competitors)
  {
  }
}
