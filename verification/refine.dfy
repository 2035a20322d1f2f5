/**
 * The last data-preparation stage (data/4_refine.py): the geocoder's GeoJSON
 * answer is reduced to a `[lat, lng]` pair, rows without one are excluded
 * (unless that would exclude all of them), rows missing a required text field
 * are dropped, an empty result is an error, and the surviving rows are written
 * with the seven columns in a fixed order.
 */
module Refine {
  import opened Wrappers
  import opened Seqs
  import opened Json

  /** A two-element list `[first, second]` as `get_coords` returns it. */
  datatype Pair = Pair(first: Json, second: Json)

  /** Exchanging the two members: GeoJSON's `[lng, lat]` becomes `[lat, lng]`. */
  function Swap(p: Pair): (q: Pair)
    ensures q.first == p.second && q.second == p.first
  {
    Pair(p.second, p.first)
  }

  /** Swapping twice gives back the original pair. */
  lemma SwapTwice(p: Pair)
    ensures Swap(Swap(p)) == p
  {
  }

  /**
   * `x[i]` for an integer index: a list element or a one-character string.
   * An index out of range, a dictionary (whose keys are strings) and every
   * other kind of value raise, which the caller turns into None.
   */
  function ItemAt(x: Json, i: nat): (r: Option<Json>)
    ensures x.JArray? && i < |x.items| ==> r == Some(x.items[i])
    ensures !(x.JArray? || x.JString?) ==> r.None?
  {
    match x
    case JArray(items) => if i < |items| then Some(items[i]) else None
    case JString(s) => if i < |s| then Some(JString([s[i]])) else None
    case _ => None
  }

  /** `x[key]` for a string key: only a dictionary holding `key` answers; everything else raises. */
  function FieldAt(x: Json, key: string): (r: Option<Json>)
    ensures r.Some? <==> x.JObject? && key in x.fields
    ensures r.Some? ==> r.value == x.fields[key]
  {
    match x
    case JObject(fields) => if key in fields then Some(fields[key]) else None
    case _ => None
  }

  /** `len(x)`: defined for lists, strings and dictionaries; raises (None) for the rest. */
  function Length(x: Json): Option<nat> {
    match x
    case JArray(items) => Some(|items|)
    case JString(s) => Some(|s|)
    case JObject(fields) => Some(|fields|)
    case _ => None
  }

  /**
   * `get_coords`. The argument is the result of `json.loads` on the cell,
   * None when that raised. A value that is not a dictionary never yields a
   * pair: for a list or a string, `"features" in x` is either false or is
   * followed by `x["features"]`, which raises; for any other value the `in`
   * test itself raises. Every raised exception is caught and becomes None.
   */
  function GetCoords(cell: Option<Json>): (r: Option<Pair>)
    ensures cell.None? ==> r.None?
    ensures cell.Some? && !(cell.value.JObject? && "features" in cell.value.fields) ==> r.None?
    ensures (cell.Some? && cell.value.JObject? && "features" in cell.value.fields &&
             Length(cell.value.fields["features"]) == Some(0)) ==> r.None?
    ensures r.Some? ==> cell.Some? && cell.value.JObject? && "features" in cell.value.fields &&
                        cell.value.fields["features"].JArray? && |cell.value.fields["features"].items| > 0
  {
    match cell
    case None => None
    case Some(doc) =>
      if !(doc.JObject? && "features" in doc.fields) then None
      else
        var features := doc.fields["features"];
        match Length(features)
        case None => None
        case Some(n) =>
          if n == 0 then None
          else
            match ItemAt(features, 0)
            case None => None
            case Some(first) =>
              match FieldAt(first, "geometry")
              case None => None
              case Some(geometry) =>
                match FieldAt(geometry, "coordinates")
                case None => None
                case Some(coords) =>
                  match (ItemAt(coords, 1), ItemAt(coords, 0))
                  case (Some(lat), Some(lng)) => Some(Pair(lat, lng))
                  case _ => None
  }

  /**
   * For any answer whose first feature has a geometry object holding a
   * coordinate list of at least two entries, the result is the first two
   * coordinates swapped into `[lat, lng]`. Other keys of the document, of the
   * feature and of the geometry, later features and further coordinates play
   * no part.
   */
  lemma GetCoordsOfFirstFeature(doc: map<string, Json>, feature: map<string, Json>,
                                geometry: map<string, Json>, coords: seq<Json>)
    requires "features" in doc && doc["features"].JArray? && |doc["features"].items| > 0
    requires doc["features"].items[0] == JObject(feature)
    requires "geometry" in feature && feature["geometry"] == JObject(geometry)
    requires "coordinates" in geometry && geometry["coordinates"] == JArray(coords)
    requires |coords| >= 2
    ensures GetCoords(Some(JObject(doc))) == Some(Pair(coords[1], coords[0]))
    ensures Swap(GetCoords(Some(JObject(doc))).value) == Pair(coords[0], coords[1])
  {
  }

  /**
   * Every way the lookup path can break yields None: no `features` key, a
   * `features` value that is not a list, an empty list, a first feature that
   * is not a dictionary or has no `geometry`, a geometry that is not a
   * dictionary or has no `coordinates`, and coordinates that are neither a
   * list nor a string of length at least two.
   */
  lemma GetCoordsFailuresAreNone(doc: map<string, Json>)
    ensures "features" !in doc ==> GetCoords(Some(JObject(doc))) == None
    ensures "features" in doc && !doc["features"].JArray? ==> GetCoords(Some(JObject(doc))) == None
    ensures "features" in doc && doc["features"] == JArray([]) ==> GetCoords(Some(JObject(doc))) == None
    ensures "features" in doc && doc["features"].JArray? && |doc["features"].items| > 0 ==>
              var first := doc["features"].items[0];
              !(first.JObject? && "geometry" in first.fields) ==> GetCoords(Some(JObject(doc))) == None
    ensures "features" in doc && doc["features"].JArray? && |doc["features"].items| > 0 ==>
              var first := doc["features"].items[0];
              first.JObject? && "geometry" in first.fields ==>
                var geometry := first.fields["geometry"];
                !(geometry.JObject? && "coordinates" in geometry.fields) ==> GetCoords(Some(JObject(doc))) == None
    ensures "features" in doc && doc["features"].JArray? && |doc["features"].items| > 0 ==>
              var first := doc["features"].items[0];
              first.JObject? && "geometry" in first.fields ==>
                var geometry := first.fields["geometry"];
                geometry.JObject? && "coordinates" in geometry.fields ==>
                  var coords := geometry.fields["coordinates"];
                  !(coords.JArray? && |coords.items| >= 2) && !(coords.JString? && |coords.s| >= 2) ==>
                    GetCoords(Some(JObject(doc))) == None
  {
  }

  /** A row as read from the geocoded CSV file; None marks a missing cell (NaN). */
  datatype RawRow = RawRow(
    publishedAt: Option<string>,
    title: Option<string>,
    description: Option<string>,
    videoId: Option<string>,
    transcript: Option<string>,
    location: Option<string>,
    /** The parsed geocoder answer; None when the cell was missing or not JSON. */
    geocode: Option<Json>)

  /** A row after `get_coords` has been applied to its geocode column. */
  datatype Row = Row(
    publishedAt: Option<string>,
    title: Option<string>,
    description: Option<string>,
    videoId: Option<string>,
    transcript: Option<string>,
    location: Option<string>,
    geocode: Option<Pair>)

  /** `df["geocode"].apply(get_coords)` on one row. */
  function WithCoords(raw: RawRow): (row: Row)
    ensures row.publishedAt == raw.publishedAt && row.title == raw.title && row.description == raw.description
    ensures row.videoId == raw.videoId && row.transcript == raw.transcript && row.location == raw.location
    ensures row.geocode == GetCoords(raw.geocode)
    ensures row.geocode.Some? ==> raw.geocode.Some? && raw.geocode.value.JObject?
  {
    Row(raw.publishedAt, raw.title, raw.description, raw.videoId, raw.transcript, raw.location, GetCoords(raw.geocode))
  }

  /** The geocode column after conversion, for every row. */
  function ConvertAll(raws: seq<RawRow>): (rows: seq<Row>)
    ensures |rows| == |raws|
    ensures forall k :: 0 <= k < |raws| ==> rows[k] == WithCoords(raws[k])
  {
    seq(|raws|, k requires 0 <= k < |raws| => WithCoords(raws[k]))
  }

  predicate HasGeocode(row: Row) {
    row.geocode.Some?
  }

  predicate LacksGeocode(row: Row) {
    row.geocode.None?
  }

  /** None of `publishedAt`, `title`, `videoId`, `location`, `transcript` is missing. */
  predicate Complete(row: Row) {
    row.publishedAt.Some? && row.title.Some? && row.videoId.Some? && row.location.Some? && row.transcript.Some?
  }

  /** The `ValueError` raised when no row survives the required-field drop. */
  datatype RefineError = EmptyAfterDrop | MissingColumn(name: string)

  /** The geocode exclusion with its fallback to the excluded rows when none would remain. */
  function KeepGeocoded(rows: seq<Row>): (r: seq<Row>)
    ensures IsSubseq(r, rows)
    ensures forall x :: x in rows && HasGeocode(x) ==> x in r
    ensures (forall x :: x in r ==> HasGeocode(x)) || (forall x :: x in rows ==> x in r)
    ensures (exists k :: 0 <= k < |rows| && HasGeocode(rows[k])) ==> r == Filter(rows, HasGeocode)
    ensures (forall k :: 0 <= k < |rows| ==> !HasGeocode(rows[k])) ==> r == rows
  {
    FilterIsSubseq(rows, HasGeocode);
    FilterIsSubseq(rows, LacksGeocode);
    var withGeocode := Filter(rows, HasGeocode);
    if |withGeocode| == 0 then
      assert forall k :: 0 <= k < |rows| ==> rows[k] in rows;
      FilterAllKept(rows, LacksGeocode);
      Filter(rows, LacksGeocode)
    else
      assert withGeocode[0] in rows && HasGeocode(withGeocode[0]);
      withGeocode
  }

  /** The row selection: geocode exclusion with fallback, required-field drop, error when empty. */
  function KeepRows(raws: seq<RawRow>): (r: Result<seq<Row>, RefineError>)
    ensures r.Failure? ==> r.error == EmptyAfterDrop
    ensures r.Success? ==> |r.value| > 0 && forall x :: x in r.value ==> Complete(x) && x in ConvertAll(raws)
  {
    var complete := Filter(KeepGeocoded(ConvertAll(raws)), Complete);
    if |complete| == 0 then Failure(EmptyAfterDrop) else Success(complete)
  }

  /** When no row has a geocode, the excluded rows are all the rows, so the fallback keeps every row. */
  lemma FallbackKeepsEveryRow(rows: seq<Row>)
    requires forall k :: 0 <= k < |rows| ==> !HasGeocode(rows[k])
    ensures KeepGeocoded(rows) == rows
  {
    FilterNoneKept(rows, HasGeocode);
    FilterAllKept(rows, LacksGeocode);
  }

  /** When some row has a geocode, the selection is the complete rows that have one, in their original order. */
  lemma KeepGeocodedComplete(rows: seq<Row>, k: int)
    requires 0 <= k < |rows| && HasGeocode(rows[k])
    ensures Filter(KeepGeocoded(rows), Complete) == Filter(rows, (row: Row) => HasGeocode(row) && Complete(row))
  {
    assert rows[k] in Filter(rows, HasGeocode);
    FilterCompose(rows, HasGeocode, Complete, (row: Row) => HasGeocode(row) && Complete(row));
  }

  /**
   * The selection as one filter over the converted rows: if some row has a
   * geocode, the complete rows with a geocode in their original order;
   * otherwise all complete rows. It fails exactly when that list is empty.
   */
  lemma KeepRowsSpec(raws: seq<RawRow>)
    ensures var rows := ConvertAll(raws);
            var expected := if exists k :: 0 <= k < |rows| && HasGeocode(rows[k])
                            then Filter(rows, (row: Row) => HasGeocode(row) && Complete(row))
                            else Filter(rows, Complete);
            (KeepRows(raws).Failure? <==> |expected| == 0) &&
            (KeepRows(raws).Success? ==> KeepRows(raws).value == expected)
  {
    var rows := ConvertAll(raws);
    if exists k :: 0 <= k < |rows| && HasGeocode(rows[k]) {
      var k :| 0 <= k < |rows| && HasGeocode(rows[k]);
      KeepGeocodedComplete(rows, k);
    } else {
      FallbackKeepsEveryRow(rows);
    }
  }

  /** A successful selection is a non-empty, order-preserving selection of complete converted rows. */
  lemma KeepRowsSucceedsWithCompleteRows(raws: seq<RawRow>)
    ensures KeepRows(raws).Success? ==>
              |KeepRows(raws).value| > 0 &&
              IsSubseq(KeepRows(raws).value, ConvertAll(raws)) &&
              forall k :: 0 <= k < |KeepRows(raws).value| ==> Complete(KeepRows(raws).value[k])
  {
    var kept := KeepGeocoded(ConvertAll(raws));
    FilterIsSubseq(kept, Complete);
    SubseqTransitive(Filter(kept, Complete), kept, ConvertAll(raws));
    if KeepRows(raws).Success? {
      assert forall k :: 0 <= k < |KeepRows(raws).value| ==> KeepRows(raws).value[k] in KeepRows(raws).value;
    }
  }


  /** A cell of the output table. */
  datatype Cell = Text(text: Option<string>) | Coords(coords: Option<Pair>)

  /** A named cell of an output record. */
  datatype Column = Column(name: string, cell: Cell)

  /** The column names the CSV file is read with. */
  const ReadColumns: seq<string> := ["publishedAt", "title", "description", "videoId", "transcript", "location", "geocode"]

  /** The column order the output files are written with. */
  const RequiredColumns: seq<string> := ["publishedAt", "title", "description", "videoId", "transcript", "location", "geocode"]

  /** The cell of `row` under the column called `name`, if there is such a column. */
  function CellNamed(row: Row, name: string): Option<Cell> {
    if name == "publishedAt" then Some(Text(row.publishedAt))
    else if name == "title" then Some(Text(row.title))
    else if name == "description" then Some(Text(row.description))
    else if name == "videoId" then Some(Text(row.videoId))
    else if name == "transcript" then Some(Text(row.transcript))
    else if name == "location" then Some(Text(row.location))
    else if name == "geocode" then Some(Coords(row.geocode))
    else None
  }

  /** A row of the data frame as a record, its columns in the order they were read. */
  function AsRecord(row: Row): (r: seq<Column>)
    ensures |r| == |ReadColumns|
    ensures forall k :: 0 <= k < |r| ==> r[k].name == ReadColumns[k] && Some(r[k].cell) == CellNamed(row, r[k].name)
  {
    [Column("publishedAt", Text(row.publishedAt)), Column("title", Text(row.title)),
     Column("description", Text(row.description)), Column("videoId", Text(row.videoId)),
     Column("transcript", Text(row.transcript)), Column("location", Text(row.location)),
     Column("geocode", Coords(row.geocode))]
  }

  /** The first column of `record` called `name`. */
  function Lookup(record: seq<Column>, name: string): (r: Option<Cell>)
    ensures r.Some? <==> exists k :: 0 <= k < |record| && record[k].name == name
  {
    if |record| == 0 then None
    else if record[0].name == name then Some(record[0].cell)
    else Lookup(record[1..], name)
  }

  /** `df[names]`: the named columns in the given order; a name that is not a column raises `KeyError`. */
  function SelectColumns(record: seq<Column>, names: seq<string>): (r: Result<seq<Column>, RefineError>)
    ensures r.Success? ==> |r.value| == |names|
    ensures r.Success? ==> forall k :: 0 <= k < |names| ==> r.value[k].name == names[k]
    ensures r.Success? ==> forall k :: 0 <= k < |names| ==> Lookup(record, names[k]) == Some(r.value[k].cell)
    ensures r.Failure? ==> exists k :: 0 <= k < |names| && Lookup(record, names[k]).None?
  {
    if |names| == 0 then Success([])
    else
      match Lookup(record, names[0])
      case None => Failure(MissingColumn(names[0]))
      case Some(cell) =>
        match SelectColumns(record, names[1..])
        case Failure(e) => Failure(e)
        case Success(rest) => Success([Column(names[0], cell)] + rest)
  }

  /** `record` is the output record of `row`: the seven required columns, in order, each holding the field of its name. */
  predicate IsOutputRecord(record: seq<Column>, row: Row) {
    |record| == |RequiredColumns| &&
    forall k :: 0 <= k < |RequiredColumns| ==>
      record[k].name == RequiredColumns[k] && Some(record[k].cell) == CellNamed(row, RequiredColumns[k])
  }

  /**
   * The whole stage: the selected rows, each as a record with exactly the
   * seven required columns in order. The column selection cannot fail, since
   * every required column was read, so the only error is an empty selection.
   */
  function RefineRows(raws: seq<RawRow>): (r: Result<seq<seq<Column>>, RefineError>)
    ensures r.Failure? ==> r.error == EmptyAfterDrop
    ensures r.Failure? <==> KeepRows(raws).Failure?
    ensures r.Success? ==> |r.value| == |KeepRows(raws).value|
    ensures r.Success? ==> forall i :: 0 <= i < |r.value| ==> IsOutputRecord(r.value[i], KeepRows(raws).value[i])
  {
    match KeepRows(raws)
    case Failure(e) => Failure(e)
    case Success(rows) => SelectAll(rows)
  }

  /** `df[RequiredColumns]` over every row. */
  function SelectAll(rows: seq<Row>): (r: Result<seq<seq<Column>>, RefineError>)
    ensures r.Success?
    ensures |r.value| == |rows|
    ensures forall i :: 0 <= i < |rows| ==> IsOutputRecord(r.value[i], rows[i])
    decreases |rows|
  {
    if |rows| == 0 then Success([])
    else
      RecordSelectsToOutput(rows[0]);
      var first := SelectColumns(AsRecord(rows[0]), RequiredColumns);
      var rest := SelectAll(rows[1..]);
      Success([first.value] + rest.value)
  }

  /** Selecting the required columns from a row's record succeeds and gives its output record. */
  lemma RecordSelectsToOutput(row: Row)
    ensures SelectColumns(AsRecord(row), RequiredColumns).Success?
    ensures IsOutputRecord(SelectColumns(AsRecord(row), RequiredColumns).value, row)
  {
    RecordHasEveryColumn(row);
  }

  /** In a record whose earlier columns have other names, looking a column's name up finds that column. */
  lemma {:induction false} LookupFindsColumn(record: seq<Column>, k: int)
    requires 0 <= k < |record|
    requires forall j :: 0 <= j < k ==> record[j].name != record[k].name
    ensures Lookup(record, record[k].name) == Some(record[k].cell)
    decreases k
  {
    if k > 0 {
      LookupFindsColumn(record[1..], k - 1);
    }
  }

  /** Every required column is found in a record under its own name and holds the field of that name. */
  lemma RecordHasEveryColumn(row: Row)
    ensures forall k :: 0 <= k < |RequiredColumns| ==> Lookup(AsRecord(row), RequiredColumns[k]) == CellNamed(row, RequiredColumns[k])
    ensures SelectColumns(AsRecord(row), RequiredColumns).Success?
  {
    var rec := AsRecord(row);
    forall k | 0 <= k < |RequiredColumns| ensures Lookup(rec, RequiredColumns[k]) == CellNamed(row, RequiredColumns[k]) {
      assert rec[k].name == RequiredColumns[k];
      LookupFindsColumn(rec, k);
    }
  }
}
