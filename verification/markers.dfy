/**
 * The map side of the application (web/src/MapComponent.tsx): the marker
 * layer and the video-id -> marker index rebuilt on every change of the
 * displayed list, and the reaction to a change of the active video.
 */
module Markers {
  import opened Seqs
  import opened App

  /** A position handed to the map library, latitude first. */
  datatype LatLng = LatLng(lat: real, lng: real)

  /** A placed marker: the video it plays and where it stands. */
  datatype Marker = Marker(videoId: string, pos: LatLng)

  /** The marker layer (every placed marker, in placement order) and the id -> marker index. */
  datatype MarkerState = MarkerState(layer: seq<Marker>, index: map<string, Marker>)

  /** What the map does when the active video changes. */
  datatype Effect =
    | NoEffect
      /** Open the popup of `videoId`'s marker and pan the view to `target`. */
    | Reveal(videoId: string, target: LatLng)

  /** A record gets a marker only when its geocode is a non-null list of exactly two numbers. */
  predicate Placeable(v: Video) {
    v.geocode.Some? && |v.geocode.value| == 2
  }

  /** The marker for a placeable record, standing exactly at its geocode. */
  function ToMarker(v: Video): (m: Marker)
    requires Placeable(v)
    ensures m.videoId == v.videoId
    ensures [m.pos.lat, m.pos.lng] == v.geocode.value
  {
    Marker(v.videoId, LatLng(v.geocode.value[0], v.geocode.value[1]))
  }

  /** The markers of a list of placeable records, one each, in order. */
  function MarkersOf(vs: seq<Video>): (ms: seq<Marker>)
    requires forall k :: 0 <= k < |vs| ==> Placeable(vs[k])
    ensures |ms| == |vs|
    ensures forall k :: 0 <= k < |vs| ==> ms[k] == ToMarker(vs[k])
  {
    seq(|vs|, k requires 0 <= k < |vs| => ToMarker(vs[k]))
  }

  /** The ids of the placeable records of `data`. */
  function PlacedIds(data: seq<Video>): set<string> {
    set k | 0 <= k < |data| && Placeable(data[k]) :: data[k].videoId
  }

  /** `data[k]` is placeable and no later placeable record has the same id. */
  predicate IsLastPlaced(data: seq<Video>, k: int)
    requires 0 <= k < |data|
  {
    Placeable(data[k]) &&
    forall j :: k < j < |data| ==> !(Placeable(data[j]) && data[j].videoId == data[k].videoId)
  }

  /** `clearLayers()` and a fresh `Map`: nothing survives from the previous state. */
  function Clear(prev: MarkerState): (r: MarkerState)
    ensures |r.layer| == 0 && |r.index| == 0
  {
    MarkerState([], map[])
  }

  /** One iteration of the placement loop: skip the record, or add its marker to the layer and the index. */
  function PlaceOne(s: MarkerState, v: Video): (r: MarkerState)
    ensures r.layer == s.layer + (if Placeable(v) then [ToMarker(v)] else [])
    ensures r.index.Keys == s.index.Keys + (if Placeable(v) then {v.videoId} else {})
    ensures Placeable(v) ==> r.index[v.videoId] == ToMarker(v)
    ensures forall id :: id in s.index && !(Placeable(v) && id == v.videoId) ==> r.index[id] == s.index[id]
  {
    if Placeable(v) then
      MarkerState(s.layer + [ToMarker(v)], s.index[v.videoId := ToMarker(v)])
    else s
  }

  /** The ids placed from `init + [last]` are those placed from `init`, plus `last`'s when it is placeable. */
  lemma PlacedIdsSnoc(init: seq<Video>, last: Video)
    ensures PlacedIds(init + [last]) == PlacedIds(init) + (if Placeable(last) then {last.videoId} else {})
  {
    var data := init + [last];
    forall id | id in PlacedIds(data)
      ensures id in PlacedIds(init) + (if Placeable(last) then {last.videoId} else {})
    {
      var k :| 0 <= k < |data| && Placeable(data[k]) && data[k].videoId == id;
      if k < |init| {
        assert init[k] == data[k];
      }
    }
    forall id | id in PlacedIds(init) ensures id in PlacedIds(data) {
      var k :| 0 <= k < |init| && Placeable(init[k]) && init[k].videoId == id;
      assert data[k] == init[k];
    }
    if Placeable(last) {
      assert data[|init|] == last;
    }
  }

  /** A record that is the last placed one of `init + [last]` and is not `last` itself is the last placed one of `init`. */
  lemma LastPlacedSnoc(init: seq<Video>, last: Video, k: int)
    requires 0 <= k < |init|
    requires IsLastPlaced(init + [last], k)
    ensures IsLastPlaced(init, k)
    ensures !(Placeable(last) && last.videoId == init[k].videoId)
  {
    var data := init + [last];
    assert data[k] == init[k];
    assert data[|init|] == last;
    forall j | k < j < |init| ensures !(Placeable(init[j]) && init[j].videoId == init[k].videoId) {
      assert init[j] == data[j];
    }
  }

  /** The layer grows by exactly one marker for each placeable record appended to the data. */
  lemma MarkersOfSnoc(init: seq<Video>, last: Video)
    ensures forall v :: v in Filter(init, Placeable) ==> Placeable(v)
    ensures forall v :: v in Filter(init + [last], Placeable) ==> Placeable(v)
    ensures MarkersOf(Filter(init + [last], Placeable)) ==
              MarkersOf(Filter(init, Placeable)) + (if Placeable(last) then [ToMarker(last)] else [])
  {
    FilterSnoc(init, last, Placeable);
  }

  /** One more placement extends the layer of the loop so far by the next record's marker, if it has one. */
  lemma PlaceStepLayer(start: MarkerState, before: MarkerState, init: seq<Video>, last: Video)
    requires forall v :: v in Filter(init, Placeable) ==> Placeable(v)
    requires before.layer == start.layer + MarkersOf(Filter(init, Placeable))
    ensures forall v :: v in Filter(init + [last], Placeable) ==> Placeable(v)
    ensures PlaceOne(before, last).layer == start.layer + MarkersOf(Filter(init + [last], Placeable))
  {
    MarkersOfSnoc(init, last);
  }

  /** One more placement extends the index keys of the loop so far by the next record's id, if it is placeable. */
  lemma PlaceStepKeys(start: MarkerState, before: MarkerState, init: seq<Video>, last: Video)
    requires before.index.Keys == start.index.Keys + PlacedIds(init)
    ensures PlaceOne(before, last).index.Keys == start.index.Keys + PlacedIds(init + [last])
  {
    PlacedIdsSnoc(init, last);
  }

  /**
   * The placement loop over `data`, starting from `start`. Unplaceable records
   * are skipped without stopping the loop; the layer gets one marker per
   * placeable record, duplicates included; the index gets an entry for each
   * of their ids; ids without a placeable record keep whatever `start` had.
   */
  function PlaceAll(start: MarkerState, data: seq<Video>): (r: MarkerState)
    ensures forall v :: v in Filter(data, Placeable) ==> Placeable(v)
    ensures r.layer == start.layer + MarkersOf(Filter(data, Placeable))
    ensures r.index.Keys == start.index.Keys + PlacedIds(data)
    decreases |data|
  {
    if |data| == 0 then start
    else
      var init := data[..|data| - 1];
      var last := data[|data| - 1];
      assert data == init + [last];
      PlaceStepLayer(start, PlaceAll(start, init), init, last);
      PlaceStepKeys(start, PlaceAll(start, init), init, last);
      PlaceOne(PlaceAll(start, init), last)
  }

  /** Ids that no record of the data places keep the entry they had before the loop. */
  lemma {:induction false} PlaceAllKeepsOthers(start: MarkerState, data: seq<Video>, id: string)
    requires id in start.index && id !in PlacedIds(data)
    ensures id in PlaceAll(start, data).index
    ensures PlaceAll(start, data).index[id] == start.index[id]
    decreases |data|
  {
    if |data| > 0 {
      var init := data[..|data| - 1];
      var last := data[|data| - 1];
      assert data == init + [last];
      PlacedIdsSnoc(init, last);
      PlaceAllKeepsOthers(start, init, id);
    }
  }

  /** One placement step keeps the entry of a record that no later record overrides, and sets the entry of a placeable last record. */
  lemma LastWinsStep(before: MarkerState, init: seq<Video>, last: Video, k: int)
    requires 0 <= k <= |init| && IsLastPlaced(init + [last], k)
    requires k < |init| ==> init[k].videoId in before.index && before.index[init[k].videoId] == ToMarker(init[k])
    ensures (init + [last])[k].videoId in PlaceOne(before, last).index
    ensures PlaceOne(before, last).index[(init + [last])[k].videoId] == ToMarker((init + [last])[k])
  {
    var data := init + [last];
    if k < |init| {
      assert data[k] == init[k];
      LastPlacedSnoc(init, last, k);
    } else {
      assert data[k] == last;
    }
  }

  /** In the index the placement loop builds, the last placeable record with a given id wins. */
  lemma {:induction false} PlaceAllLastWins(start: MarkerState, data: seq<Video>, k: int)
    requires 0 <= k < |data| && IsLastPlaced(data, k)
    ensures data[k].videoId in PlaceAll(start, data).index
    ensures PlaceAll(start, data).index[data[k].videoId] == ToMarker(data[k])
    decreases |data|
  {
    var init := data[..|data| - 1];
    var last := data[|data| - 1];
    assert data == init + [last];
    if k < |init| {
      LastPlacedSnoc(init, last, k);
      PlaceAllLastWins(start, init, k);
    }
    LastWinsStep(PlaceAll(start, init), init, last, k);
  }

  /**
   * The `[data]` effect: clear the layer and the index, then place one marker
   * per placeable record. The result depends on `data` alone.
   */
  function Rebuild(prev: MarkerState, data: seq<Video>): (r: MarkerState)
    ensures forall v :: v in Filter(data, Placeable) ==> Placeable(v)
    ensures r.layer == MarkersOf(Filter(data, Placeable))
    ensures r.index.Keys == PlacedIds(data)
    ensures forall k :: 0 <= k < |data| && IsLastPlaced(data, k) ==> r.index[data[k].videoId] == ToMarker(data[k])
  {
    forall k | 0 <= k < |data| && IsLastPlaced(data, k)
      ensures PlaceAll(Clear(prev), data).index[data[k].videoId] == ToMarker(data[k])
    {
      PlaceAllLastWins(Clear(prev), data, k);
    }
    PlaceAll(Clear(prev), data)
  }

  /** The `[activeVideo]` effect: reveal the active video's marker when the index has one, otherwise do nothing. */
  function OnActiveChange(s: MarkerState, active: string): (e: Effect)
    ensures e.Reveal? <==> active in s.index
    ensures e.Reveal? ==> e.videoId == active && e.target == s.index[active].pos
  {
    if active in s.index then Reveal(active, s.index[active].pos) else NoEffect
  }

  /** Every id with a placeable record has exactly one record that is the last placed one with that id. */
  lemma {:induction false} LastPlacedExists(data: seq<Video>, id: string)
    requires id in PlacedIds(data)
    ensures exists k :: 0 <= k < |data| && IsLastPlaced(data, k) && data[k].videoId == id
    decreases |data|
  {
    var last := data[|data| - 1];
    if Placeable(last) && last.videoId == id {
      assert IsLastPlaced(data, |data| - 1);
    } else {
      var init := data[..|data| - 1];
      var k :| 0 <= k < |data| && Placeable(data[k]) && data[k].videoId == id;
      assert k < |init| && init[k] == data[k];
      assert id in PlacedIds(init);
      LastPlacedExists(init, id);
      var k' :| 0 <= k' < |init| && IsLastPlaced(init, k') && init[k'].videoId == id;
      assert data[k'] == init[k'];
      forall j | k' < j < |data| ensures !(Placeable(data[j]) && data[j].videoId == data[k'].videoId) {
        if j < |init| {
          assert data[j] == init[j];
        }
      }
      assert IsLastPlaced(data, k');
    }
  }

  /**
   * After a rebuild from `data`, activating `id` reveals a marker exactly when
   * some record with that id has a two-element geocode, and then pans to the
   * geocode of the last such record, unchanged.
   */
  lemma ActiveChangeAfterRebuild(prev: MarkerState, data: seq<Video>, id: string)
    ensures OnActiveChange(Rebuild(prev, data), id).Reveal? <==>
              exists k :: 0 <= k < |data| && Placeable(data[k]) && data[k].videoId == id
    ensures forall k :: 0 <= k < |data| && IsLastPlaced(data, k) && data[k].videoId == id ==>
              OnActiveChange(Rebuild(prev, data), id) ==
                Reveal(id, LatLng(data[k].geocode.value[0], data[k].geocode.value[1]))
  {
    if id in PlacedIds(data) {
      LastPlacedExists(data, id);
    }
  }

  /** Every marker in a rebuilt layer stands at the geocode of a placeable record of the new data. */
  lemma RebuiltMarkersComeFromData(prev: MarkerState, data: seq<Video>, i: int)
    requires 0 <= i < |Rebuild(prev, data).layer|
    ensures exists k :: 0 <= k < |data| && Placeable(data[k]) && Rebuild(prev, data).layer[i] == ToMarker(data[k])
  {
    var kept := Filter(data, Placeable);
    assert kept[i] in kept;
    var k :| 0 <= k < |data| && data[k] == kept[i];
  }

  /** Every marker in a rebuilt layer can be found again through the index under its video id. */
  lemma LayerIdsAreIndexed(prev: MarkerState, data: seq<Video>, i: int)
    requires 0 <= i < |Rebuild(prev, data).layer|
    ensures Rebuild(prev, data).layer[i].videoId in Rebuild(prev, data).index
  {
    RebuiltMarkersComeFromData(prev, data, i);
    var k :| 0 <= k < |data| && Placeable(data[k]) && Rebuild(prev, data).layer[i] == ToMarker(data[k]);
    assert data[k].videoId in PlacedIds(data);
  }
}
