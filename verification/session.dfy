/**
 * The application's session: the React state of the component and the three
 * map overlays (reported incidents, the pending selection, the facilities),
 * changed by the form, the map's pointer events, the map-type button and
 * the facility search.
 */
module App {
  import opened Wrappers
  import opened Seqs
  import opened Text
  import opened Geo
  import opened Facilities
  import opened Reports
  import opened MapStyles

  /** The incidents-overlay marker of a report: at its position, titled with its first issue. */
  function IncidentMarker(r: Report): Feature
    requires |r.issues| > 0
  {
    Feature(Point(r.lng, r.lat), Titled(r.issues[0]))
  }

  /** The selection-overlay marker of a coordinate. */
  function SelectionMarker(c: Coordinate): Feature {
    Feature(PointOf(c), NoProps)
  }

  /**
   * The incidents overlay mirrors the newest reports: every report names an
   * issue, and the markers are those of the `|markers|` newest reports (the
   * ones submitted since the overlay was created), oldest first. Reports
   * submitted before the overlay existed have no marker.
   */
  ghost predicate MarkersMirror(incidents: seq<Report>, markers: seq<Feature>) {
    && (forall k :: 0 <= k < |incidents| ==> |incidents[k].issues| > 0)
    && |markers| <= |incidents|
    && (forall k :: 0 <= k < |markers| ==> markers[k] == IncidentMarker(incidents[|markers| - 1 - k]))
  }

  /**
   * A new report in front keeps the overlay a mirror: with its marker appended
   * when the overlay exists, and with no marker while the overlay is still empty.
   */
  lemma MirrorAfterSubmit(incidents: seq<Report>, markers: seq<Feature>, report: Report)
    requires MarkersMirror(incidents, markers) && |report.issues| > 0
    ensures MarkersMirror([report] + incidents, markers + [IncidentMarker(report)])
    ensures markers == [] ==> MarkersMirror([report] + incidents, markers)
  {
    var incs := [report] + incidents;
    var ms := markers + [IncidentMarker(report)];
    forall k | 0 <= k < |incs| ensures |incs[k].issues| > 0 {
      if k > 0 {
        assert incs[k] == incidents[k - 1];
      }
    }
    forall k | 0 <= k < |ms| ensures ms[k] == IncidentMarker(incs[|ms| - 1 - k]) {
      if k < |markers| {
        assert incs[|ms| - 1 - k] == incidents[|markers| - 1 - k];
      }
    }
  }

  class Session {
    // component state
    var selected: Option<Coordinate>
    var issues: seq<string>
    var notes: string
    var incidents: seq<Report>
    var searchTerm: string
    var filteredIncidents: seq<Report>
    var dataCenters: seq<DataCenter>

    // the map: whether it was created, its style, and whether its overlays exist yet
    var hasMap: bool
    var mapStyle: string
    var overlaysReady: bool
    var incidentMarkers: seq<Feature>
    var selectionMarkers: seq<Feature>
    var facilityMarkers: seq<Feature>

    /** Overlays exist only on a created map, and hold markers only once they exist. */
    ghost predicate OverlaysValid()
      reads this`hasMap, this`overlaysReady, this`incidentMarkers, this`selectionMarkers, this`facilityMarkers
    {
      && (overlaysReady ==> hasMap)
      && (!overlaysReady ==> incidentMarkers == [] && selectionMarkers == [] && facilityMarkers == [])
    }

    /** The incidents overlay holds one marker per report submitted since it was created. */
    ghost predicate IncidentsValid()
      reads this`incidents, this`incidentMarkers
    {
      MarkersMirror(incidents, incidentMarkers)
    }

    /**
     * The selection overlay holds at most one marker, and while a selection is
     * pending that marker, if any, is at the selection. A selection made before
     * the overlay existed has no marker.
     */
    ghost predicate SelectionValid()
      reads this`selected, this`selectionMarkers
    {
      && |selectionMarkers| <= 1
      && (selected.Some? && selectionMarkers != [] ==> selectionMarkers == [SelectionMarker(selected.value)])
    }

    /** The search results are always those of the current term. */
    ghost predicate SearchValid()
      reads this`incidents, this`searchTerm, this`filteredIncidents
    {
      filteredIncidents == SearchIncidents(incidents, searchTerm)
    }

    /**
     * The session invariant: the overlays, the reports and their markers, the
     * selection and the search results agree as above, and the selected
     * issues hold no key twice.
     */
    ghost predicate Valid()
      reads this
    {
      && OverlaysValid()
      && IncidentsValid()
      && SelectionValid()
      && SearchValid()
      && NoDuplicates(issues)
    }

    /** Start-up: empty state; the map exists only when a maps key is configured, in the "road" style. */
    constructor (mapKeyPresent: bool)
      ensures Valid()
      ensures selected.None? && issues == [] && notes == "" && incidents == []
      ensures searchTerm == "" && filteredIncidents == [] && dataCenters == []
      ensures hasMap == mapKeyPresent && mapStyle == "road" && !overlaysReady
    {
      selected := None;
      issues := [];
      notes := "";
      incidents := [];
      searchTerm := "";
      filteredIncidents := [];
      dataCenters := [];
      hasMap := mapKeyPresent;
      mapStyle := "road";
      overlaysReady := false;
      incidentMarkers := [];
      selectionMarkers := [];
      facilityMarkers := [];
    }

    /** The map's ready event: the three overlays are created, empty. */
    method OnMapReady()
      requires Valid() && hasMap && !overlaysReady
      modifies this`overlaysReady
      ensures Valid() && overlaysReady
      ensures incidentMarkers == [] && selectionMarkers == [] && facilityMarkers == []
    {
      overlaysReady := true;
    }

    /**
     * A click or touch on the map (the handler exists once the overlays do):
     * a resolved coordinate becomes the selection and the selection overlay
     * is cleared and given one marker there; otherwise nothing changes.
     */
    method HandleMapInteraction(e: PointerEvent, project: Option<Pixel -> Point>)
      requires Valid() && overlaysReady
      modifies this`selected, this`selectionMarkers
      ensures Valid()
      ensures var r := ResolvePointer(e, project);
        if r.Some? then selected == r && selectionMarkers == [SelectionMarker(r.value)]
        else selected == old(selected) && selectionMarkers == old(selectionMarkers)
    {
      var r := ResolvePointer(e, project);
      if r.Some? {
        selected := r;
        selectionMarkers := [];
        selectionMarkers := selectionMarkers + [SelectionMarker(r.value)];
      }
    }

    /**
     * The user's position `c` arrives: it becomes the selection, and when the
     * selection overlay exists it is cleared and given one marker there.
     */
    method SelectLocation(c: Coordinate)
      requires Valid()
      modifies this`selected, this`selectionMarkers
      ensures Valid()
      ensures selected == Some(c)
      ensures selectionMarkers == if overlaysReady then [SelectionMarker(c)] else old(selectionMarkers)
    {
      selected := Some(c);
      if overlaysReady {
        selectionMarkers := [];
        selectionMarkers := selectionMarkers + [SelectionMarker(c)];
      }
    }

    /**
     * "Use my location" with the browser's answer `c`: the position is
     * selected as above, then the facility search runs around it.
     */
    method LocateUser(c: Coordinate, fetch: string -> TermResponse, roll: nat -> Impact)
      requires Valid()
      modifies this`selected, this`selectionMarkers, this`dataCenters, this`facilityMarkers
      ensures Valid()
      ensures selected == Some(c)
      ensures selectionMarkers == if overlaysReady then [SelectionMarker(c)] else old(selectionMarkers)
      ensures var out := Aggregate(Gathered(SearchTerms, fetch), c, roll);
        && dataCenters == out.centers
        && facilityMarkers == (if overlaysReady && !out.Failed? then FacilityFeatures(out.centers)
                               else old(facilityMarkers))
    {
      SelectLocation(c);
      FetchDataCenters(c, fetch, roll);
    }

    /** The notes text box: the notes become its text. */
    method SetNotes(text: string)
      requires Valid()
      modifies this`notes
      ensures Valid()
      ensures notes == text
    {
      notes := text;
    }

    /** A checkbox of the form: the issue key is toggled in the selected issues. */
    method ToggleIssue(key: string)
      requires Valid()
      modifies this`issues
      ensures Valid()
      ensures issues == Toggle(old(issues), key)
    {
      ToggleKeepsNoDuplicates(issues, key);
      issues := Toggle(issues, key);
    }

    /** The search box: the term changes and the search effect recomputes the results. */
    method SetSearchTerm(term: string)
      requires Valid()
      modifies this`searchTerm, this`filteredIncidents
      ensures Valid()
      ensures searchTerm == term && filteredIncidents == SearchIncidents(incidents, term)
    {
      searchTerm := term;
      filteredIncidents := SearchIncidents(incidents, searchTerm);
    }

    /** The map-type button: without a map nothing happens; otherwise the next style is set. */
    method ChangeMapStyle()
      requires Valid()
      modifies this`mapStyle
      ensures Valid()
      ensures mapStyle == if hasMap then NextStyle(old(mapStyle)) else old(mapStyle)
    {
      if !hasMap {
        return;
      }
      var newStyle := NextStyle(mapStyle);
      mapStyle := newStyle;
    }

    /**
     * Submitting the form. Without a selection or without an issue nothing
     * changes. Otherwise the report (stamped `now`) goes to the front of the
     * reports, the selection, issues and notes are reset, and, when the
     * incidents overlay exists, a marker is added for it.
     */
    method Submit(now: string)
      requires Valid()
      modifies this`incidents, this`selected, this`issues, this`notes, this`incidentMarkers,
               this`filteredIncidents
      ensures Valid()
      ensures old(selected).None? || old(issues) == [] ==>
        && incidents == old(incidents) && selected == old(selected) && issues == old(issues)
        && notes == old(notes) && incidentMarkers == old(incidentMarkers)
        && filteredIncidents == old(filteredIncidents)
      ensures old(selected).Some? && old(issues) != [] ==>
        var report := Report(old(selected).value.lat, old(selected).value.lng, old(issues), old(notes), now);
        && incidents == [report] + old(incidents)
        && selected.None? && issues == [] && notes == ""
        && incidentMarkers == old(incidentMarkers) + (if overlaysReady then [IncidentMarker(report)] else [])
        && filteredIncidents == SearchIncidents(incidents, searchTerm)
    {
      if selected.None? || |issues| == 0 {
        return;
      }
      var at := selected.value;
      var report := Report(at.lat, at.lng, issues, notes, now);
      selected := None;
      issues := [];
      notes := "";
      Record(report);
    }

    /**
     * A new report goes to the front of the reports, the search results are
     * recomputed, and, when the incidents overlay exists, its marker is added.
     */
    method Record(report: Report)
      requires Valid() && |report.issues| > 0
      modifies this`incidents, this`incidentMarkers, this`filteredIncidents
      ensures Valid()
      ensures incidents == [report] + old(incidents)
      ensures incidentMarkers == old(incidentMarkers) + (if overlaysReady then [IncidentMarker(report)] else [])
      ensures filteredIncidents == SearchIncidents(incidents, searchTerm)
    {
      MirrorAfterSubmit(incidents, incidentMarkers, report);
      incidents := [report] + incidents;
      filteredIncidents := SearchIncidents(incidents, searchTerm);
      if overlaysReady {
        incidentMarkers := incidentMarkers + [IncidentMarker(report)];
      }
    }

    /**
     * The facility search around `center`: the per-term loop, then dedup,
     * relevance, shaping or the samples. The published list replaces the
     * facilities; when the overlays exist and the search did not throw, the
     * facility overlay is cleared and redrawn from it.
     */
    method FetchDataCenters(center: Coordinate, fetch: string -> TermResponse, roll: nat -> Impact)
      requires Valid()
      modifies this`dataCenters, this`facilityMarkers
      ensures Valid()
      ensures var out := Aggregate(Gathered(SearchTerms, fetch), center, roll);
        && dataCenters == out.centers
        && facilityMarkers == (if overlaysReady && !out.Failed? then FacilityFeatures(out.centers)
                               else old(facilityMarkers))
    {
      var all := GatherResults(SearchTerms, fetch);
      var out := Aggregate(all, center, roll);
      dataCenters := out.centers;
      if overlaysReady && !out.Failed? {
        facilityMarkers := FacilityFeatures(out.centers);
      }
    }
  }
}
