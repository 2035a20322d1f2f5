/**
 * The state the two components share, driven by user events: the active
 * video id, the two sidebar selectors, and the marker state the map derives
 * from the displayed list (web/src/App.tsx and web/src/MapComponent.tsx).
 * React re-runs an effect only when one of its dependencies changes, so
 * setting the active id to its current value has no effect at all.
 */
module Session {
  import opened Seqs
  import opened App
  import opened Markers

  /** What the user sees and the map holds. */
  datatype Ui = Ui(active: string, playlist: string, filter: string, markers: MarkerState)

  /** The user events the components react to. */
  datatype Event =
    | ChoosePlaylist(value: string)
    | TypeFilter(text: string)
      /** A click on the sidebar row at this position of the displayed list. */
    | ClickRow(row: nat)
      /** A click on the marker at this position of the marker layer. */
    | ClickMarker(marker: nat)

  /** The marker state always mirrors the displayed list for the current selectors. */
  predicate Consistent(all: seq<Video>, ui: Ui) {
    ui.markers == Rebuild(MarkerState([], map[]), Displayed(all, ui.playlist, ui.filter))
  }

  /** Only rows and markers that exist can be clicked. */
  predicate CanHappen(all: seq<Video>, ui: Ui, ev: Event) {
    match ev
    case ClickRow(k) => k < |Displayed(all, ui.playlist, ui.filter)|
    case ClickMarker(k) => k < |ui.markers.layer|
    case _ => true
  }

  /**
   * Mounting: the active id and both selectors start empty; the `[activeVideo]`
   * effect runs before the `[data]` effect and so looks `""` up in an empty
   * index; then the markers of every loaded record are placed.
   */
  function Mount(all: seq<Video>): (r: (Ui, Effect))
    ensures r.0.active == "" && r.0.playlist == "" && r.0.filter == ""
    ensures r.0.markers.index.Keys == PlacedIds(all)
    ensures r.1 == NoEffect
  {
    var empty := MarkerState([], map[]);
    var first := OnActiveChange(empty, "");
    (Ui("", "", "", Rebuild(empty, Displayed(all, "", ""))), first)
  }

  /** `setActiveVideo(id)`: a new id triggers the map lookup; the current id changes nothing. */
  function Select(ui: Ui, id: string): (r: (Ui, Effect))
    ensures r.0.active == id
    ensures r.0.playlist == ui.playlist && r.0.filter == ui.filter && r.0.markers == ui.markers
    ensures r.1.Reveal? <==> id != ui.active && id in ui.markers.index
    ensures r.1.Reveal? ==> r.1.videoId == id && r.1.target == ui.markers.index[id].pos
  {
    if id == ui.active then (ui, NoEffect)
    else (ui.(active := id), OnActiveChange(ui.markers, id))
  }

  /** The reaction to one user event. */
  function Step(all: seq<Video>, ui: Ui, ev: Event): (r: (Ui, Effect))
    requires CanHappen(all, ui, ev)
    ensures (ev.ChoosePlaylist? || ev.TypeFilter?) ==> r.0.active == ui.active && r.1 == NoEffect
    ensures ev.ChoosePlaylist? ==> r.0.playlist == ev.value && r.0.filter == ui.filter
    ensures ev.TypeFilter? ==> r.0.filter == ev.text && r.0.playlist == ui.playlist
    ensures ev.ClickRow? ==> r.0.active == Displayed(all, ui.playlist, ui.filter)[ev.row].videoId
    ensures ev.ClickMarker? ==> r.0.active == ui.markers.layer[ev.marker].videoId
    ensures r.1.Reveal? ==> r.1.videoId == r.0.active && r.0.active != ui.active
    ensures (ev.ClickRow? || ev.ClickMarker?) ==>
              r.0.playlist == ui.playlist && r.0.filter == ui.filter && r.0.markers == ui.markers
  {
    match ev
    case ChoosePlaylist(p) =>
      (ui.(playlist := p, markers := Rebuild(ui.markers, Displayed(all, p, ui.filter))), NoEffect)
    case TypeFilter(f) =>
      (ui.(filter := f, markers := Rebuild(ui.markers, Displayed(all, ui.playlist, f))), NoEffect)
    case ClickRow(k) => Select(ui, Displayed(all, ui.playlist, ui.filter)[k].videoId)
    case ClickMarker(k) => Select(ui, ui.markers.layer[k].videoId)
  }

  /** Mounting establishes consistency, and every event preserves it. */
  lemma StepKeepsConsistent(all: seq<Video>, ui: Ui, ev: Event)
    requires Consistent(all, ui) && CanHappen(all, ui, ev)
    ensures Consistent(all, Mount(all).0)
    ensures Consistent(all, Step(all, ui, ev).0)
  {
  }

  /**
   * Changing a selector keeps the active id and opens no popup, while the
   * markers are rebuilt for the new displayed list: its placeable records'
   * markers in order, and exactly their ids in the index.
   */
  lemma SelectorChangeKeepsActive(all: seq<Video>, ui: Ui, ev: Event)
    requires ev.ChoosePlaylist? || ev.TypeFilter?
    ensures Step(all, ui, ev).0.active == ui.active
    ensures Step(all, ui, ev).1 == NoEffect
    ensures var after := Step(all, ui, ev).0;
            var shown := Displayed(all, after.playlist, after.filter);
            after.markers.layer == MarkersOf(Filter(shown, Placeable)) &&
            after.markers.index.Keys == PlacedIds(shown)
  {
  }

  /**
   * Clicking a sidebar row makes that row's video the active one (no toggle):
   * exactly the rows with its id get the active class, and when the id is new
   * and the video has a marker, the map pans to its last marker's geocode.
   */
  lemma ClickRowActivates(all: seq<Video>, ui: Ui, k: nat)
    requires Consistent(all, ui) && k < |Displayed(all, ui.playlist, ui.filter)|
    ensures var shown := Displayed(all, ui.playlist, ui.filter);
            var after := Step(all, ui, ClickRow(k)).0;
            after.active == shown[k].videoId &&
            forall j :: 0 <= j < |shown| ==>
              (RowClass(shown[j], after.active) == "sidebar-item active-video" <==> shown[j].videoId == shown[k].videoId)
    ensures var shown := Displayed(all, ui.playlist, ui.filter);
            var id := shown[k].videoId;
            forall j :: 0 <= j < |shown| && IsLastPlaced(shown, j) && shown[j].videoId == id && id != ui.active ==>
              Step(all, ui, ClickRow(k)).1 == Reveal(id, LatLng(shown[j].geocode.value[0], shown[j].geocode.value[1]))
    ensures var shown := Displayed(all, ui.playlist, ui.filter);
            (forall j :: 0 <= j < |shown| && shown[j].videoId == shown[k].videoId ==> !Placeable(shown[j])) ==>
              Step(all, ui, ClickRow(k)).1 == NoEffect
  {
    var shown := Displayed(all, ui.playlist, ui.filter);
    ActiveChangeAfterRebuild(MarkerState([], map[]), shown, shown[k].videoId);
  }

  /**
   * Clicking a marker makes its video the active one; when that id is new the
   * map reveals it, at the position of the last marker placed for that id.
   */
  lemma ClickMarkerActivates(all: seq<Video>, ui: Ui, k: nat)
    requires Consistent(all, ui) && k < |ui.markers.layer|
    ensures Step(all, ui, ClickMarker(k)).0.active == ui.markers.layer[k].videoId
    ensures ui.markers.layer[k].videoId != ui.active ==>
              Step(all, ui, ClickMarker(k)).1.Reveal? &&
              Step(all, ui, ClickMarker(k)).1.videoId == ui.markers.layer[k].videoId
    ensures forall j :: 0 <= j < |Displayed(all, ui.playlist, ui.filter)| &&
                        IsLastPlaced(Displayed(all, ui.playlist, ui.filter), j) &&
                        Displayed(all, ui.playlist, ui.filter)[j].videoId == ui.markers.layer[k].videoId &&
                        ui.markers.layer[k].videoId != ui.active ==>
              Step(all, ui, ClickMarker(k)).1 == Reveal(ui.markers.layer[k].videoId, ToMarker(Displayed(all, ui.playlist, ui.filter)[j]).pos)
  {
    var shown := Displayed(all, ui.playlist, ui.filter);
    LayerIdsAreIndexed(MarkerState([], map[]), shown, k);
    var id := ui.markers.layer[k].videoId;
    assert id in ui.markers.index;
    assert Step(all, ui, ClickMarker(k)) == Select(ui, id);
    forall j | 0 <= j < |shown| && IsLastPlaced(shown, j) && shown[j].videoId == id && id != ui.active
      ensures Step(all, ui, ClickMarker(k)).1 == Reveal(id, ToMarker(shown[j]).pos)
    {
      assert ui.markers.index[id] == ToMarker(shown[j]);
    }
  }

  /**
   * When the list the map is built from is the loaded data, no marker stands
   * at `0, 0`: the load-time exclusion removed every record whose geocode
   * starts with that pair, and a marker's position is its record's geocode.
   */
  lemma NoMarkerAtOrigin(data: seq<Video>, ui: Ui, i: int)
    requires Consistent(LoadVideoData(data), ui) && 0 <= i < |ui.markers.layer|
    ensures ui.markers.layer[i].pos != LatLng(0.0, 0.0)
  {
    var all := LoadVideoData(data);
    var shown := Displayed(all, ui.playlist, ui.filter);
    RebuiltMarkersComeFromData(MarkerState([], map[]), shown, i);
    var k :| 0 <= k < |shown| && Placeable(shown[k]) && ui.markers.layer[i] == ToMarker(shown[k]);
    assert shown[k] in shown;
    DisplayedMembership(all, ui.playlist, ui.filter, shown[k]);
    assert shown[k] in all;
  }
}
