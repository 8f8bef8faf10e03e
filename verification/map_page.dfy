/** The map page: which marker is selected (its kind and id), the lookup of the
    selected record, and which side panel is shown for it. */
module MapPage {
  import opened Wrappers
  import opened Types
  import opened Sequences
  import MapComponent

  /** What `getSelectedEntityData` returns: `null` when nothing (or an unknown
      kind) is selected, `undefined` when `find` has no match, or the record. */
  datatype Lookup = Null | Undefined | Found(entity: Entity)

  /** The kinds the page looks up; any other kind falls to the `default` branch. */
  predicate KnownKind(entityType: string) {
    entityType == "subject" || entityType == "competitor" || entityType == "university"
  }

  /** The collection searched for a kind, as map entities. */
  function Collection(entityType: string, subjects: seq<SubjectProperty>, competitors: seq<CompetitorProperty>, universities: seq<University>): (r: seq<Entity>)
    ensures forall e :: e in r ==> e.KindTag() == entityType
    ensures !KnownKind(entityType) ==> r == []
  {
    if entityType == "subject" then SubjectEntities(subjects)
    else if entityType == "competitor" then CompetitorEntities(competitors)
    else if entityType == "university" then UniversityEntities(universities)
    else []
  }

  /** `getSelectedEntityData`. The found record carries the selected id and the
      selected kind and is the first one of that kind with the id; `undefined`
      means exactly that no record of a known kind has the id. */
  function SelectedEntityData(entityType: string, selected: Option<string>, subjects: seq<SubjectProperty>, competitors: seq<CompetitorProperty>, universities: seq<University>): (r: Lookup)
    ensures r.Null? <==> !Truthy(selected) || !KnownKind(entityType)
    ensures r.Found? ==> Truthy(selected) && r.entity.Id() == selected.value && r.entity.KindTag() == entityType
    ensures r.Found? ==>
      exists i :: 0 <= i < |Collection(entityType, subjects, competitors, universities)|
        && Collection(entityType, subjects, competitors, universities)[i] == r.entity
        && forall j :: 0 <= j < i ==> Collection(entityType, subjects, competitors, universities)[j].Id() != selected.value
    ensures r.Undefined? <==>
      (Truthy(selected) && KnownKind(entityType)
        && forall e :: e in Collection(entityType, subjects, competitors, universities) ==> e.Id() != selected.value)
  {
    if !Truthy(selected) || !KnownKind(entityType) then Null
    else
      var coll := Collection(entityType, subjects, competitors, universities);
      match FindIndex(coll, (e: Entity) => e.Id() == selected.value)
      case None => Undefined
      case Some(i) => Found(coll[i])
  }

  /** The details panel is shown when the looked-up data is truthy, the
      placeholder otherwise. */
  predicate ShowsDetails(data: Lookup) {
    data.Found?
  }

  /** The university card, rather than the property card, is rendered. */
  predicate UsesUniversityCard(entityType: string) {
    entityType == "university"
  }

  /** The heading of the side panel. */
  function PanelTitle(entityType: string, data: Lookup): (r: string)
    ensures !ShowsDetails(data) ==> r == "Select a property"
    ensures ShowsDetails(data) ==> (r == "University Details" <==> UsesUniversityCard(entityType))
    ensures ShowsDetails(data) && !UsesUniversityCard(entityType) ==> r == "Property Details"
  {
    if !ShowsDetails(data) then "Select a property"
    else if UsesUniversityCard(entityType) then "University Details"
    else "Property Details"
  }

  /** Whenever details are shown, the card matches the record: the university
      card exactly for a university, the property card exactly for a property. */
  lemma CardMatchesRecord(entityType: string, selected: Option<string>, subjects: seq<SubjectProperty>, competitors: seq<CompetitorProperty>, universities: seq<University>)
    ensures var data := SelectedEntityData(entityType, selected, subjects, competitors, universities);
      ShowsDetails(data) ==> (UsesUniversityCard(entityType) <==> data.entity.UniversityEntity?)
  {
    var data := SelectedEntityData(entityType, selected, subjects, competitors, universities);
    if data.Found? {
      assert data.entity.KindTag() == entityType;
    }
  }

  /** Every marker on the map lies in the collection searched for its kind. */
  lemma MarkerInCollection(subjects: seq<SubjectProperty>, competitors: seq<CompetitorProperty>, universities: seq<University>, m: Entity)
    requires m in MapComponent.Markers(subjects, competitors, universities)
    ensures m in Collection(m.KindTag(), subjects, competitors, universities)
  {
    var ss, cs, us := SubjectEntities(subjects), CompetitorEntities(competitors), UniversityEntities(universities);
    assert MapComponent.Markers(subjects, competitors, universities) == ss + cs + us;
    if m in ss {
      var i :| 0 <= i < |ss| && ss[i] == m;
      assert m.KindTag() == "subject";
    } else if m in cs {
      var i :| 0 <= i < |cs| && cs[i] == m;
      assert m.KindTag() == "competitor";
    } else {
      assert m in us;
      var i :| 0 <= i < |us| && us[i] == m;
      assert m.KindTag() == "university";
    }
  }

  /** A click on any marker whose id is not empty, reported to the page and looked
      up, finds a record of the marker's kind with the marker's id: the details
      panel is never left empty after a click. */
  lemma ClickedMarkerIsFound(subjects: seq<SubjectProperty>, competitors: seq<CompetitorProperty>, universities: seq<University>, m: Entity)
    requires m in MapComponent.Markers(subjects, competitors, universities)
    requires m.Id() != ""
    ensures var data := SelectedEntityData(m.KindTag(), Some(m.Id()), subjects, competitors, universities);
      data.Found? && data.entity.Id() == m.Id() && data.entity.KindTag() == m.KindTag()
  {
    MarkerInCollection(subjects, competitors, universities, m);
    assert KnownKind(m.KindTag());
  }

  /** The page's own state. */
  class MapPageState {
    var selectedEntityType: string
    var selectedEntity: Option<string>

    constructor ()
      ensures selectedEntityType == "" && selectedEntity == None
      ensures forall subjects, competitors, universities :: !ShowsDetails(Data(subjects, competitors, universities))
    {
      selectedEntityType := "";
      selectedEntity := None;
    }

    /** The data looked up for the current selection. */
    function Data(subjects: seq<SubjectProperty>, competitors: seq<CompetitorProperty>, universities: seq<University>): Lookup
      reads this
    {
      SelectedEntityData(selectedEntityType, selectedEntity, subjects, competitors, universities)
    }

    /** `handleEntitySelection`, the handler passed to the map. */
    method HandleEntitySelection(id: string, entityType: string)
      modifies this
      ensures selectedEntityType == entityType && selectedEntity == Some(id)
    {
      selectedEntityType := entityType;
      selectedEntity := Some(id);
    }

    /** `clearSelection`, the close button of the panel: afterwards the
        placeholder is shown whatever the data. */
    method ClearSelection()
      modifies this
      ensures selectedEntityType == "" && selectedEntity == None
      ensures forall subjects, competitors, universities :: Data(subjects, competitors, universities) == Null
    {
      selectedEntityType := "";
      selectedEntity := None;
    }
  }

  /** A click on a marker as the two components handle it together: the map
      remembers the marker, reports it, and the page selects it, after which the
      details panel shows a record of the marker's kind and id. */
  method ClickMarker(widget: MapComponent.MapState, page: MapPageState,
                     subjects: seq<SubjectProperty>, competitors: seq<CompetitorProperty>, universities: seq<University>, m: Entity)
    requires m in MapComponent.Markers(subjects, competitors, universities)
    requires m.Id() != ""
    modifies widget, page
    ensures widget.selectedMarker == Some(m.Id())
    ensures page.selectedEntityType == m.KindTag() && page.selectedEntity == Some(m.Id())
    ensures var data := page.Data(subjects, competitors, universities);
      ShowsDetails(data) && data.entity.Id() == m.Id() && data.entity.KindTag() == m.KindTag()
  {
    var notice := widget.Click(m, true);
    page.HandleEntitySelection(notice.value.id, notice.value.kind);
    ClickedMarkerIsFound(subjects, competitors, universities, m);
  }
}
