/**
 * The record validator of the data pipeline (data/check_type.py): every item
 * of the loaded list is sorted into the valid list or, with its position, into
 * the invalid list, by a field-by-field type test.
 */
module CheckType {
  import opened Wrappers
  import opened Seqs
  import opened Json

  /** `isinstance(x, str)`. */
  predicate IsStr(x: Json) {
    x.JString?
  }

  /** `isinstance(x, (int, float))`; Python's `bool` is a subclass of `int`, so booleans pass. */
  predicate IsNumber(x: Json) {
    x.JInt? || x.JFloat? || x.JBool?
  }

  /** `isinstance(x, bool)`. */
  predicate IsBool(x: Json) {
    x.JBool?
  }

  /** The geocode test: `None` (or absent), an empty list, or a list of two numbers. */
  predicate GeocodeOk(g: Json) {
    (g.JArray? && (|g.items| == 0 || (|g.items| == 2 && IsNumber(g.items[0]) && IsNumber(g.items[1]))))
    || g.JNull?
  }

  /** The three playlist codes the validator admits. */
  const Playlists: seq<Json> := [JString("ap"), JString("tymnk"), JString("bfs")]

  /** The acceptance test applied to one item (a dictionary). */
  predicate Accepts(fields: map<string, Json>): (ok: bool)
    ensures ok ==> "publishedAt" in fields && "title" in fields && "videoId" in fields && "location" in fields
    ensures ok ==> "playlist" in fields && "marked" in fields
    ensures ok ==> fields["playlist"].JString? && fields["playlist"].s in {"ap", "tymnk", "bfs"}
    ensures ok ==> fields["marked"].JBool?
  {
    IsStr(Get(fields, "publishedAt")) &&
    IsStr(Get(fields, "title")) &&
    IsStr(Get(fields, "videoId")) &&
    IsStr(Get(fields, "location")) &&
    GeocodeOk(Get(fields, "geocode")) &&
    Get(fields, "playlist") in Playlists &&
    IsBool(Get(fields, "marked"))
  }

  /** An item that is a dictionary the acceptance test passes. */
  predicate AcceptsItem(item: Json) {
    item.JObject? && Accepts(item.fields)
  }

  /** A rejected item and its position in the input. */
  datatype Rejected = Rejected(index: nat, item: Json)

  /** The two lists the validator returns. */
  datatype Validation = Validation(valid: seq<Json>, invalid: seq<Rejected>)

  /** The `AttributeError` raised when the item at `index` is not a dictionary and has no `.get`. */
  datatype NotADict = NotADict(index: nat)

  /**
   * `invalid` lists, in increasing position order and each with its position,
   * exactly the rejected items among the first `n` items of `data`.
   */
  predicate RejectedUpTo(data: seq<Json>, n: int, invalid: seq<Rejected>)
    requires 0 <= n <= |data|
  {
    (forall e :: 0 <= e < |invalid| ==>
       invalid[e].index < n && data[invalid[e].index] == invalid[e].item && !AcceptsItem(invalid[e].item)) &&
    (forall e, f :: 0 <= e < f < |invalid| ==> invalid[e].index < invalid[f].index) &&
    (forall k :: 0 <= k < n && !AcceptsItem(data[k]) ==> Rejected(k, data[k]) in invalid)
  }

  /** Examining item `n` extends the rejected list when, and only when, the item is rejected. */
  lemma RejectedStep(data: seq<Json>, n: int, invalid: seq<Rejected>)
    requires 0 <= n < |data| && RejectedUpTo(data, n, invalid)
    ensures AcceptsItem(data[n]) ==> RejectedUpTo(data, n + 1, invalid)
    ensures !AcceptsItem(data[n]) ==> RejectedUpTo(data, n + 1, invalid + [Rejected(n, data[n])])
  {
  }

  /** Examining item `n` extends the accepted list when, and only when, the item is accepted. */
  lemma ValidStep(data: seq<Json>, n: int)
    requires 0 <= n < |data|
    ensures AcceptsItem(data[n]) ==> Filter(data[..n + 1], AcceptsItem) == Filter(data[..n], AcceptsItem) + [data[n]]
    ensures !AcceptsItem(data[n]) ==> Filter(data[..n + 1], AcceptsItem) == Filter(data[..n], AcceptsItem)
  {
    assert data[..n + 1] == data[..n] + [data[n]];
    FilterSnoc(data[..n], data[n], AcceptsItem);
  }

  /** Each of the first `n` items is a dictionary. */
  predicate AllDictsBefore(data: seq<Json>, n: int)
    requires 0 <= n <= |data|
  {
    forall k :: 0 <= k < n ==> data[k].JObject?
  }

  /** After the first `n` items: all were dictionaries, and they are split correctly into `valid` and `invalid`. */
  predicate ScannedUpTo(data: seq<Json>, n: int, valid: seq<Json>, invalid: seq<Rejected>)
    requires 0 <= n <= |data|
  {
    AllDictsBefore(data, n) &&
    valid == Filter(data[..n], AcceptsItem) &&
    |valid| + |invalid| == n &&
    RejectedUpTo(data, n, invalid)
  }

  /** Examining one more dictionary appends it to exactly one of the two lists. */
  lemma ScanStep(data: seq<Json>, n: int, valid: seq<Json>, invalid: seq<Rejected>)
    requires 0 <= n < |data| && data[n].JObject? && ScannedUpTo(data, n, valid, invalid)
    ensures AcceptsItem(data[n]) ==> ScannedUpTo(data, n + 1, valid + [data[n]], invalid)
    ensures !AcceptsItem(data[n]) ==> ScannedUpTo(data, n + 1, valid, invalid + [Rejected(n, data[n])])
  {
    ValidStep(data, n);
    RejectedStep(data, n, invalid);
  }

  /** Before the loop, nothing has been examined and both lists are empty. */
  lemma ScanStart(data: seq<Json>)
    ensures ScannedUpTo(data, 0, [], [])
  {
    assert data[..0] == [];
  }

  /** After the loop, the two lists split the whole input and no item was a non-dictionary. */
  lemma ScanDone(data: seq<Json>, valid: seq<Json>, invalid: seq<Rejected>)
    requires ScannedUpTo(data, |data|, valid, invalid)
    ensures AllDictsBefore(data, |data|)
    ensures valid == Filter(data, AcceptsItem)
    ensures |valid| + |invalid| == |data|
    ensures RejectedUpTo(data, |data|, invalid)
  {
    assert data[..|data|] == data;
  }

  /** `validate_video_data`. */
  method ValidateVideoData(data: seq<Json>) returns (r: Result<Validation, NotADict>)
    ensures r.Success? ==> AllDictsBefore(data, |data|)
    ensures r.Failure? ==> r.error.index < |data| && !data[r.error.index].JObject? && AllDictsBefore(data, r.error.index)
    ensures r.Success? ==> r.value.valid == Filter(data, AcceptsItem)
    ensures r.Success? ==> |r.value.valid| + |r.value.invalid| == |data|
    ensures r.Success? ==> RejectedUpTo(data, |data|, r.value.invalid)
  {
    var valid: seq<Json> := [];
    var invalid: seq<Rejected> := [];
    var i := 0;
    ScanStart(data);
    while i < |data|
      invariant 0 <= i <= |data|
      invariant ScannedUpTo(data, i, valid, invalid)
    {
      var item := data[i];
      if !item.JObject? {
        return Failure(NotADict(i));
      }
      ScanStep(data, i, valid, invalid);
      if AcceptsItem(item) {
        valid := valid + [item];
      } else {
        invalid := invalid + [Rejected(i, item)];
      }
      i := i + 1;
    }
    ScanDone(data, valid, invalid);
    return Success(Validation(valid, invalid));
  }

  /** The four text fields pass exactly when each is present and holds a string. */
  lemma TextFieldsIff(fields: map<string, Json>)
    ensures (IsStr(Get(fields, "publishedAt")) && IsStr(Get(fields, "title")) &&
             IsStr(Get(fields, "videoId")) && IsStr(Get(fields, "location"))) <==>
            forall key :: key in ["publishedAt", "title", "videoId", "location"] ==> key in fields && fields[key].JString?
  {
    var textKeys := ["publishedAt", "title", "videoId", "location"];
    forall key | key in textKeys ensures key == textKeys[0] || key == textKeys[1] || key == textKeys[2] || key == textKeys[3] {
    }
  }

  /** The geocode passes exactly when it is absent, `None`, `[]`, or a pair of numbers. */
  lemma GeocodeIff(fields: map<string, Json>)
    ensures GeocodeOk(Get(fields, "geocode")) <==>
      ("geocode" !in fields || fields["geocode"] == JNull || fields["geocode"] == JArray([]) ||
       (fields["geocode"].JArray? && |fields["geocode"].items| == 2 &&
        IsNumber(fields["geocode"].items[0]) && IsNumber(fields["geocode"].items[1])))
  {
    if "geocode" in fields && fields["geocode"].JArray? && |fields["geocode"].items| == 0 {
      assert fields["geocode"] == JArray([]);
    }
  }

  /**
   * The acceptance test field by field: the four text fields must be strings,
   * a missing geocode counts as `None`, the geocode may be `None`, `[]` or a
   * pair of numbers, and a missing playlist or marked flag is rejected.
   */
  lemma AcceptsIff(fields: map<string, Json>)
    ensures Accepts(fields) <==>
      (forall key :: key in ["publishedAt", "title", "videoId", "location"] ==>
         key in fields && fields[key].JString?) &&
      ("geocode" !in fields || fields["geocode"] == JNull || fields["geocode"] == JArray([]) ||
       (fields["geocode"].JArray? && |fields["geocode"].items| == 2 &&
        IsNumber(fields["geocode"].items[0]) && IsNumber(fields["geocode"].items[1]))) &&
      "playlist" in fields && fields["playlist"] in {JString("ap"), JString("tymnk"), JString("bfs")} &&
      "marked" in fields && fields["marked"].JBool?
  {
    TextFieldsIff(fields);
    GeocodeIff(fields);
  }

  /** A geocode list of any other length, or a pair holding a non-number, rejects the item. */
  lemma BadGeocodeRejects(fields: map<string, Json>)
    requires "geocode" in fields && fields["geocode"].JArray?
    requires var n := |fields["geocode"].items|;
             n == 1 || n >= 3 ||
             (n == 2 && !(IsNumber(fields["geocode"].items[0]) && IsNumber(fields["geocode"].items[1])))
    ensures !Accepts(fields)
  {
  }

  /** A geocode of two booleans passes the numeric test, because `bool` is a kind of `int` in Python. */
  lemma BooleanPairIsANumberPair(fields: map<string, Json>, a: bool, b: bool)
    requires fields["geocode" := JArray([JBool(a), JBool(b)])] == fields
    ensures GeocodeOk(Get(fields, "geocode"))
  {
    assert "geocode" in fields;
  }
}
