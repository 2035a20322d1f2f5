/**
 * The sidebar application: the video records loaded from the data file, the
 * load-time exclusion of `[0, 0]` geocodes, the playlist/text narrowing that
 * produces the displayed list, and the active-row class of each sidebar row
 * (web/src/App.tsx).
 */
module App {
  import opened Wrappers
  import opened Seqs
  import opened Text

  /**
   * One entry of the data file. `geocode` is `null` (None) or a list of
   * numbers; the declared shapes are `[]` and `[lat, lng]`, but the data file
   * is only cast, never checked, so any list length is possible. `playlist`
   * is an arbitrary string: only equality with the selector value matters.
   */
  datatype Video = Video(
    publishedAt: string,
    title: string,
    videoId: string,
    location: string,
    geocode: Option<seq<real>>,
    playlist: string,
    marked: bool)

  /** `geocode?.[i]`: undefined (None) when the geocode is null or too short. */
  function GeocodeAt(g: Option<seq<real>>, i: nat): (r: Option<real>)
    ensures r.Some? <==> g.Some? && i < |g.value|
    ensures r.Some? ==> r.value == g.value[i]
  {
    match g
    case None => None
    case Some(s) => if i < |s| then Some(s[i]) else None
  }

  /** Loose `x != 0` where `undefined != 0` holds. */
  predicate DiffersFromZero(x: Option<real>) {
    x != Some(0.0)
  }

  /** The load-time predicate: the record is kept unless both of its first two coordinates are zero. */
  predicate KeptAtLoad(v: Video) {
    DiffersFromZero(GeocodeAt(v.geocode, 0)) || DiffersFromZero(GeocodeAt(v.geocode, 1))
  }

  /** The geocode starts with `0, 0`, a placeholder the web app treats as "no location". */
  predicate IsZeroPair(g: Option<seq<real>>) {
    g.Some? && |g.value| >= 2 && g.value[0] == 0.0 && g.value[1] == 0.0
  }

  /** A record leaves the data set exactly when its geocode starts with `0, 0`; `null` and `[]` stay. */
  lemma KeptAtLoadIff(v: Video)
    ensures KeptAtLoad(v) <==> !IsZeroPair(v.geocode)
    ensures v.geocode.None? ==> KeptAtLoad(v)
    ensures v.geocode == Some([]) ==> KeptAtLoad(v)
    ensures v.geocode.Some? && |v.geocode.value| == 2 ==>
              (KeptAtLoad(v) <==> v.geocode.value != [0.0, 0.0])
  {
    if v.geocode.Some? && |v.geocode.value| == 2 && v.geocode.value == [0.0, 0.0] {
      assert IsZeroPair(v.geocode);
    }
  }

  /** `VideoData`: the records of the data file that survive the `[0, 0]` exclusion. */
  function LoadVideoData(data: seq<Video>): (r: seq<Video>)
    ensures forall v :: v in r <==> v in data && !IsZeroPair(v.geocode)
    ensures IsSubseq(r, data)
    ensures r == Filter(data, (v: Video) => !IsZeroPair(v.geocode))
  {
    FilterIsSubseq(data, KeptAtLoad);
    forall v ensures KeptAtLoad(v) <==> !IsZeroPair(v.geocode) {
      KeptAtLoadIff(v);
    }
    FilterExtensional(data, KeptAtLoad, (v: Video) => !IsZeroPair(v.geocode));
    Filter(data, KeptAtLoad)
  }

  /** The text-filter test: the lower-cased title contains the lower-cased filter text, untrimmed. */
  predicate TitleMatches(title: string, filter: string) {
    Includes(Lower(title), Lower(filter))
  }

  /** Lower-casing the example title. */
  lemma LowerExampleTitle()
    ensures Lower("Tag EUR It") == "tag eur it"
  {
  }

  /** Lower-casing the example filters. */
  lemma LowerExampleFilters()
    ensures Lower("tag") == "tag" && Lower("eur IT") == "eur it" && Lower("tags") == "tags"
  {
  }

  /** `tags` is not found in `Tag EUR It`: the title has no `s` at all. */
  lemma NoMatchWithoutLetter()
    ensures !Includes("tag eur it", "tags")
  {
    var hay := "tag eur it";
    IncludedCharsOccur(hay, "tags", 3);
    assert "tags"[3] == 's';
    assert forall i :: 0 <= i < |hay| ==> hay[i] != 's';
  }

  /** The text filter ignores case on both sides: `tag` and `eur IT` both find the title `Tag EUR It`. */
  lemma TitleMatchIgnoresCase()
    ensures TitleMatches("Tag EUR It", "tag")
    ensures TitleMatches("Tag EUR It", "eur IT")
    ensures !TitleMatches("Tag EUR It", "tags")
  {
    LowerExampleTitle();
    LowerExampleFilters();
    var hay := "tag eur it";
    PositionGivesIncludes(hay, "tag", 0);
    PositionGivesIncludes(hay, "eur it", 4);
    NoMatchWithoutLetter();
  }

  /** Both active selectors accept `v`; an empty selector accepts everything. */
  predicate Matches(playlist: string, filter: string, v: Video) {
    (playlist == "" || v.playlist == playlist) && (filter == "" || TitleMatches(v.title, filter))
  }

  /** `display_data`: the playlist pass, then the text pass, each skipped when its selector is empty. */
  function Displayed(all: seq<Video>, playlist: string, filter: string): (r: seq<Video>)
    ensures |r| <= |all|
    ensures playlist == "" && filter == "" ==> r == all
    ensures multiset(r) <= multiset(all)
  {
    var onPlaylist := (v: Video) => v.playlist == playlist;
    var onTitle := (v: Video) => TitleMatches(v.title, filter);
    FilterIsSubseq(all, onPlaylist);
    SubseqMultiset(Filter(all, onPlaylist), all);
    var byPlaylist := if playlist != "" then Filter(all, onPlaylist) else all;
    FilterIsSubseq(byPlaylist, onTitle);
    SubseqMultiset(Filter(byPlaylist, onTitle), byPlaylist);
    if filter != "" then Filter(byPlaylist, onTitle) else byPlaylist
  }

  /** The two narrowing passes equal a single pass with the conjunction of both selectors. */
  lemma DisplayedIsOneFilter(all: seq<Video>, playlist: string, filter: string)
    ensures Displayed(all, playlist, filter) == Filter(all, (v: Video) => Matches(playlist, filter, v))
  {
    var onPlaylist := (v: Video) => v.playlist == playlist;
    var onTitle := (v: Video) => TitleMatches(v.title, filter);
    var both := (v: Video) => Matches(playlist, filter, v);
    if playlist != "" && filter != "" {
      FilterCompose(all, onPlaylist, onTitle, both);
    } else if playlist != "" {
      FilterExtensional(all, onPlaylist, both);
    } else if filter != "" {
      FilterExtensional(all, onTitle, both);
    } else {
      FilterAllKept(all, both);
    }
  }

  /** Soundness and completeness: a record is displayed exactly when it is loaded and both selectors accept it. */
  lemma DisplayedMembership(all: seq<Video>, playlist: string, filter: string, v: Video)
    ensures v in Displayed(all, playlist, filter) <==> v in all && Matches(playlist, filter, v)
    ensures v in Displayed(all, playlist, filter) && playlist != "" ==> v.playlist == playlist
    ensures v in Displayed(all, playlist, filter) && filter != "" ==>
              exists i :: 0 <= i <= |Lower(v.title)| && Lower(filter) <= Lower(v.title)[i..]
  {
    DisplayedIsOneFilter(all, playlist, filter);
    IncludesAt(Lower(v.title), Lower(filter));
  }

  /** The displayed list is an order-preserving subsequence of the loaded records and never adds one. */
  lemma DisplayedIsSubseq(all: seq<Video>, playlist: string, filter: string)
    ensures IsSubseq(Displayed(all, playlist, filter), all)
    ensures multiset(Displayed(all, playlist, filter)) <= multiset(all)
  {
    DisplayedIsOneFilter(all, playlist, filter);
    FilterIsSubseq(all, (v: Video) => Matches(playlist, filter, v));
    SubseqMultiset(Displayed(all, playlist, filter), all);
  }

  /** With both selectors empty the displayed list is the loaded list itself. */
  lemma NoSelectorsShowsAll(all: seq<Video>)
    ensures Displayed(all, "", "") == all
  {
  }

  /** A non-empty text filter only narrows the playlist-only list. */
  lemma TextFilterNarrows(all: seq<Video>, playlist: string, filter: string)
    ensures IsSubseq(Displayed(all, playlist, filter), Displayed(all, playlist, ""))
    ensures |Displayed(all, playlist, filter)| <= |Displayed(all, playlist, "")|
  {
    var base := Displayed(all, playlist, "");
    if filter != "" {
      FilterIsSubseq(base, (v: Video) => TitleMatches(v.title, filter));
    } else {
      SubseqReflexive(base);
    }
  }

  /** Filtering the displayed list again with the same selectors returns it unchanged. */
  lemma DisplayedIdempotent(all: seq<Video>, playlist: string, filter: string)
    ensures Displayed(Displayed(all, playlist, filter), playlist, filter) == Displayed(all, playlist, filter)
  {
    var both := (v: Video) => Matches(playlist, filter, v);
    DisplayedIsOneFilter(all, playlist, filter);
    DisplayedIsOneFilter(Displayed(all, playlist, filter), playlist, filter);
    FilterIdempotent(all, both);
  }

  /** The class attribute of a sidebar row. */
  function RowClass(v: Video, active: string): (c: string)
    ensures c == "sidebar-item active-video" <==> v.videoId == active
    ensures c == "sidebar-item" <==> v.videoId != active
  {
    "sidebar-item" + (if v.videoId == active then " active-video" else "")
  }
}
