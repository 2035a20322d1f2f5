# Travel-game video map: a Dafny model

This project models the logic of a web map of "travel game" videos. The model has two parts.

The web application:
- **Load-time exclusion.** When the data file is loaded, records whose geocode is the `[0, 0]` placeholder are dropped.
- **Sidebar list.** It is narrowed by a playlist selector and a case-insensitive title filter.
- **Active video.** Clicking a sidebar row or a map marker sets a single active video id.
- **Marker layer and index.** The map clears and rebuilds a marker layer and a video-id → marker index whenever the displayed list changes. When the active id changes, it looks the id up in the index. On a hit it opens that marker's popup and pans to it.

The data-preparation scripts:
- **Record validator** (`check_type.py`). It sorts the items of the data file into a valid list and an `(index, item)` invalid list.
- **Refine stage** (`4_refine.py`). It reduces a geocoder's GeoJSON answer to a swapped `[lat, lng]` pair. It keeps rows with a geocode, falling back to the rows without one when no row has one. It drops rows missing a required field, fails on an empty result, and writes seven columns in a fixed order.

Modules, one per concern:

| file | module | models |
|---|---|---|
| `wrappers.dfy` | `Wrappers` | `Option` (null / `None`) and `Result` (a raised exception) |
| `seqs.dfy` | `Seqs` | order-preserving `Filter`, the subsequence relation, and their lemmas |
| `text.dfy` | `Text` | `toLowerCase` (ASCII letters) and `includes` |
| `app.dfy` | `App` | `VideoInfo`, the `[0, 0]` exclusion, `display_data`, the row class |
| `markers.dfy` | `Markers` | the `[data]` rebuild and the `[activeVideo]` lookup of `MapComponent` |
| `session.dfy` | `Session` | the shared state, driven by playlist, filter, row-click and marker-click events |
| `json.dfy` | `Json` | parsed JSON values, `dict.get` |
| `check_type.dfy` | `CheckType` | `validate_video_data` and its acceptance test |
| `refine.dfy` | `Refine` | `get_coords`, the row selection and the column order |

Conventions:
- **Effects as values.** The map's effects are returned as values: `NoEffect`, or `Reveal(id, target)`, which opens `id`'s popup and pans to `target`.
- **No toggle.** Setting the active id to its current value changes nothing. React does not re-run an effect whose dependency is unchanged, and the code has no toggle.
- **Exceptions as values.** The Python code's exceptions appear as `Failure` values, and the `None` answers of `get_coords` as `None`.

## Model

| member | source | states |
|---|---|---|
| App.KeptAtLoadIff | web/src/App.tsx:16 | A record is excluded at load exactly when its geocode has at least two entries and the first two are 0. A `null` or `[]` geocode is kept (`undefined != 0`). For a two-element geocode, it is excluded iff it equals `[0, 0]`. |
| App.LoadVideoData | web/src/App.tsx:16 | The loaded list holds exactly the data-file records whose geocode is not the zero pair. It is an order-preserving subsequence of the file. It equals the order-preserving filter by that test, so every copy of a duplicated record is kept. |
| App.Displayed | web/src/App.tsx:34-49 | `display_data` is never longer than the loaded list, and no record occurs in it more often than there. With both selectors empty it is the loaded list itself. |
| App.DisplayedIsOneFilter | web/src/App.tsx:34-49 | The playlist pass followed by the text pass equals one filter by the conjunction of both selectors. An empty selector accepts every record. |
| App.DisplayedMembership | web/src/App.tsx:37-46 | A record is displayed iff it is loaded, has the chosen playlist (when one is chosen), and its lower-cased title contains the lower-cased, untrimmed filter text (when there is one). Both soundness and completeness are stated. |
| App.DisplayedIsSubseq | web/src/App.tsx:34-49 | The displayed list is an order-preserving subsequence of the loaded list. No record occurs in it more often than in the loaded list. |
| App.NoSelectorsShowsAll | web/src/App.tsx:37-43 | With both selectors empty, the displayed list is the loaded list: same records, same order. |
| App.TextFilterNarrows | web/src/App.tsx:43-47 | Adding a text filter yields a subsequence of the playlist-only list. It is never longer. |
| App.DisplayedIdempotent | web/src/App.tsx:34-49 | Filtering the displayed list again with the same selectors returns it unchanged. |
| App.RowClass | web/src/App.tsx:83 | A row carries the active class iff its video id equals the active id. Otherwise it carries only the plain class. |
| App.TitleMatchIgnoresCase | web/src/App.tsx:45 | The filter ignores case on both sides: `tag` and `eur IT` both match the title `Tag EUR It`, and `tags` does not. |
| Text.Lower | web/src/App.tsx:45 | Lower-casing keeps the length. Each upper-case ASCII letter becomes its lower-case letter (code point + 32). Every other character is left as it was. |
| Text.Includes | web/src/App.tsx:45 | The empty needle is contained in every string. A contained needle is never longer than the haystack. |
| Text.IncludedCharsOccur | web/src/App.tsx:45 | Every character of a needle that `includes` finds occurs in the haystack. |
| Text.IncludesAt | web/src/App.tsx:45 | `includes` holds iff the needle is a prefix of some suffix of the haystack. |
| Markers.ToMarker | web/src/MapComponent.tsx:74-76 | A marker carries its record's video id. Its position, read back as a list, is the record's geocode unchanged, with no offset. |
| Markers.PlaceOne | web/src/MapComponent.tsx:74-87 | A record with a two-element geocode appends its marker to the layer and sets its id's index entry to that marker. Every other entry stays. Any other record changes nothing. |
| Markers.PlaceAll | web/src/MapComponent.tsx:73-89 | The layer gains one marker per record with a two-element geocode, in order, duplicates included. Other records are skipped without stopping the loop. The index keys gain exactly those records' ids. |
| Markers.PlaceAllLastWins | web/src/MapComponent.tsx:73-87 | When several placed records share an id, the index entry for that id is the marker of the last of them. |
| Markers.PlaceAllKeepsOthers | web/src/MapComponent.tsx:73-87 | An id that no placed record carries keeps the index entry it had before the loop. |
| Markers.Clear | web/src/MapComponent.tsx:70-71 | Clearing leaves an empty layer and an empty index. |
| Markers.Rebuild | web/src/MapComponent.tsx:69-91 | After a data change, the layer is exactly the markers of the placeable records, in order. The index keys are exactly their ids, and the last record wins. Nothing from the previous state survives. |
| Markers.RebuiltMarkersComeFromData | web/src/MapComponent.tsx:70-81 | Every marker in a rebuilt layer is the marker of some placeable record of the new data. |
| Markers.LayerIdsAreIndexed | web/src/MapComponent.tsx:81-87 | Every marker placed on the layer has its video id in the index. |
| Markers.OnActiveChange | web/src/MapComponent.tsx:61-67 | An active id present in the index reveals that marker: popup, and pan to its position. Any id not in the index has no effect. At mount this includes the initial `""`. |
| Markers.ActiveChangeAfterRebuild | web/src/MapComponent.tsx:61-67 | After a rebuild, activating an id reveals a marker iff some record with that id has a two-element geocode. The pan target is then the geocode of the last such record. |
| Session.Mount | web/src/MapComponent.tsx:61-91 | At mount, the active id and both selectors are empty, and the index holds the ids of every placeable record of the list the map is given. The first active-id lookup runs before placement and has no effect. |
| Session.Select | web/src/MapComponent.tsx:61-67 | Setting the active id stores it and leaves the selectors and markers alone. A reveal happens iff the id is new and indexed. Its target is the indexed marker's position. |
| Session.Step | web/src/App.tsx:56-86 | A selector event stores its value, keeps the active id and returns `NoEffect`. A row click or marker click makes the clicked video's id active and leaves both selectors and the markers unchanged. A reveal only ever happens for the new active id, and only when it differs from the previous one. |
| Session.StepKeepsConsistent | web/src/App.tsx:34-53 | Mounting makes the markers mirror the displayed list, and every event keeps them that way. |
| Session.NoMarkerAtOrigin | web/src/App.tsx:16 | When the map mirrors the loaded data, no marker stands at `0, 0`, whatever the selectors: the load-time exclusion removed every such record before placement. |
| Session.SelectorChangeKeepsActive | web/src/App.tsx:56-78 | Choosing a playlist or typing a filter keeps the active id and returns `NoEffect`: no popup opens and the map does not pan. The markers are rebuilt for the new displayed list: the layer holds its placeable records' markers in order, and the index keys are exactly their ids. |
| Session.ClickRowActivates | web/src/App.tsx:83-86 | A row click makes that row's video active, with no toggle. Exactly the rows with its id get the active class. A new id with a marker pans to the geocode of its last placed record. An id with no placeable record has no effect. |
| Session.ClickMarkerActivates | web/src/MapComponent.tsx:83-85 | A marker click makes its video active. When the id is new, the map reveals that id at the position of the last placed record with that id, even when an earlier duplicate marker was clicked. |
| CheckType.ValidateVideoData | data/check_type.py:8-35 | Raises iff some item is not a dictionary, and then names the first one. On success: `valid` is the accepted items in order, and the two lengths add up to the input length. Each invalid entry's index points at that same, rejected item. The indices strictly increase, and every rejected item is listed. |
| CheckType.Accepts | data/check_type.py:14-29 | An accepted item has the four text keys and `playlist` and `marked`. Its playlist is the string `ap`, `tymnk` or `bfs`, and `marked` is a bool. |
| CheckType.AcceptsIff | data/check_type.py:14-29 | An item is accepted iff the four text fields are strings, the geocode is absent, `None`, `[]` or a pair of numbers, the playlist is one of `ap`, `tymnk`, `bfs`, and `marked` is a bool. A missing playlist or marked key rejects. |
| CheckType.BadGeocodeRejects | data/check_type.py:20-25 | A geocode list of length 1 or ≥ 3, or a pair with a non-number, rejects the item. |
| CheckType.BooleanPairIsANumberPair | data/check_type.py:23-24 | A geocode of any two booleans passes the numeric test, since Python's `bool` is an `int`. |
| Refine.GetCoords | data/4_refine.py:25-33 | Any failure along the lookup path gives `None`, never an exception. Examples: JSON that did not parse, a value that is not a dictionary, `features` absent or empty. A result always comes from a non-empty `features` list. |
| Refine.GetCoordsOfFirstFeature | data/4_refine.py:28-30 | For any answer whose first feature has a `geometry` dictionary with a `coordinates` list of at least two entries, the result is `[coordinates[1], coordinates[0]]`, whatever other keys the document, feature and geometry carry. Later features and further coordinates are ignored. |
| Refine.GetCoordsFailuresAreNone | data/4_refine.py:26-33 | For any dictionary answer, each break along the lookup path gives `None`: no `features` key, `features` not a list, an empty list, a first feature that is not a dictionary or lacks `geometry`, a geometry that is not a dictionary or lacks `coordinates`, or coordinates that are not a list or string of length at least two. |
| Refine.SwapTwice | data/4_refine.py:30 | Swapping twice restores the pair. |
| Refine.WithCoords | data/4_refine.py:36 | Converting a row keeps its six text fields, and its geocode becomes `get_coords` of the parsed cell. A pair only ever comes from a cell that parsed to a dictionary. |
| Refine.ConvertAll | data/4_refine.py:36 | The conversion keeps the number and order of the rows and converts each row on its own. |
| Refine.FallbackKeepsEveryRow | data/4_refine.py:39-48 | When no row has a geocode, the fallback to the excluded rows keeps every row. |
| Refine.KeepGeocoded | data/4_refine.py:39-48 | If some row has a geocode, the selection is exactly the rows with a geocode, in their original order. If none has one, it is every row. |
| Refine.KeepRows | data/4_refine.py:36-57 | The only failure is the empty-result error. A success is non-empty, and every row in it is complete and comes from the converted input. |
| Refine.KeepRowsSpec | data/4_refine.py:36-57 | If some row has a geocode, the selection is the complete rows with a geocode, in original order. Otherwise it is all complete rows. It fails exactly when that list is empty. |
| Refine.KeepRowsSucceedsWithCompleteRows | data/4_refine.py:45-57 | A successful selection is non-empty, order-preserving, and has every required field present. |
| Refine.AsRecord | data/4_refine.py:8-12 | A row is read with the seven named columns in the read order. Each column holds the field of its name. |
| Refine.SelectColumns | data/4_refine.py:64-65 | Selecting columns by name gives them in the requested order with the looked-up cells. A name that is not a column fails. |
| Refine.RefineRows | data/4_refine.py:55-65 | The only possible error is the empty-selection error; the column selection cannot fail. Every output record has exactly the seven required columns in order, each holding its row's field of that name. |

## Left out

- Coordinate de-duplication, marker offsets, clustering, overlap spider-fying, per-playlist polylines and fit-bounds: none of this exists in the modelled code. The marker-cluster and spiderfier files only declare library types. Markers stand exactly at their geocode.
- A toggle-off on re-selecting the active video: the code has none. Re-selecting is a no-op.
- The popup closing when the markers are rebuilt: every selector change gives `display_data` a new value, so the `[data]` effect (web/src/MapComponent.tsx:69-91) calls `clearLayers()`, which also removes an open popup. Popups belong to Leaflet's DOM state, which the model does not hold, so `NoEffect` means only that no popup opens and the map does not pan.
- The text filter: matched untrimmed against the title only, not trimmed or matched against a playlist label. The group filter is one playlist string compared by equality, not a set of groups. This follows the code.
- Leaflet map construction, tile layer, mouse-position and GitHub controls, `map.remove`, and the popup's iframe HTML (web/src/MapComponent.tsx:22-59, 76-79): third-party DOM work. Leaflet's own popup opening on a marker click is library behaviour and is not an effect here.
- `scrollIntoView` and the row ref (web/src/App.tsx:26-31, 87-91): a DOM side effect with no state.
- `toPrecision` / `toFixed` display formatting: floating-point presentation.
- Coordinates as exact reals: NaN, infinities and `-0` of IEEE doubles are not represented.
- Text.Lower: lower-cases ASCII letters only; JavaScript's Unicode case mapping is not modelled.
- Session.Step: row and marker clicks require the clicked row or marker to exist, as the UI only offers those. React's render scheduling and batching are not modelled: each event is one atomic step.
- `json.loads`, `pd.read_csv` and `json.load`: their results are taken as parsed values. A geocode cell is a parsed JSON value, or `None` when the cell was missing or not JSON. A missing CSV cell is `None`.
- The debug printing in both Python scripts, and the module-level loading and reporting of check_type.py (lines 1-6, 37-42).
- The export of 4_refine.py (lines 67-86): file output. Its `if not df.empty` guards can never be false there, because the empty case already raised at lines 56-57.
- data/1_gather_data.py, data/2_get_places.py, data/2_try.py, data/3_geolocate.py: HTTP clients for external services, and file I/O.
- web/vite.config.ts: build configuration.
