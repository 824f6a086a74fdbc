/** The Google Maps addresses the scraper builds and reads, and the slug a
    URL is filed under. */
module Urls {
  import opened Strings

  /** What precedes a place id in a place URL. */
  const MARKER: string := "q=place_id:"

  /** The page address of a place given by its id, before the marker. */
  const PLACE_PAGE: string := "https://www.google.com/maps/place/?"

  /** The place page URL for an id, as the scraper builds it. */
  function PlaceIdUrl(id: string): (u: string)
    ensures |u| == |PLACE_PAGE| + |MARKER| + |id| && u[|PLACE_PAGE| + |MARKER|..] == id
  {
    PLACE_PAGE + MARKER + id
  }

  /** The place page address, cut at its slashes. */
  lemma PlacePagePieces()
    ensures PLACE_PAGE == "https:" + "/" + "" + "/" + "www.google.com" + "/" + "maps" + "/" + "place" + "/" + "?"
  {
  }

  /** The search page address, before the keyword. */
  const SEARCH_PAGE: string := "https://www.google.com/maps/search/"

  /** The search page address, cut at its slashes. */
  lemma SearchPagePieces()
    ensures SEARCH_PAGE == "https:" + "/" + "" + "/" + "www.google.com" + "/" + "maps" + "/" + "search" + "/"
  {
  }

  /** Six `/`-free pieces joined by `/` split back into those pieces. */
  lemma SixSegments(p0: string, p1: string, p2: string, p3: string, p4: string, p5: string)
    requires '/' !in p0 && '/' !in p1 && '/' !in p2 && '/' !in p3 && '/' !in p4 && '/' !in p5
    ensures Split(p0 + "/" + p1 + "/" + p2 + "/" + p3 + "/" + p4 + "/" + p5, '/') == [p0, p1, p2, p3, p4, p5]
  {
    var s4 := p4 + ['/'] + p5;
    var s3 := p3 + ['/'] + s4;
    var s2 := p2 + ['/'] + s3;
    var s1 := p1 + ['/'] + s2;
    assert p0 + "/" + p1 + "/" + p2 + "/" + p3 + "/" + p4 + "/" + p5 == p0 + ['/'] + s1;
    SplitNoSep(p5, '/');
    SplitConcat(p4, '/', p5);
    SplitConcat(p3, '/', s4);
    SplitConcat(p2, '/', s3);
    SplitConcat(p1, '/', s2);
    SplitConcat(p0, '/', s1);
  }

  /** The `/`-segments of a place id URL: the fifth is `place` and the id
      is in the sixth. */
  lemma PlaceIdUrlSegments(id: string)
    requires '/' !in id
    ensures Split(PlaceIdUrl(id), '/') == ["https:", "", "www.google.com", "maps", "place", "?" + MARKER + id]
  {
    var tail := "?" + MARKER + id;
    assert '/' !in tail by {
      assert '/' !in "?" + MARKER;
    }
    PlacePagePieces();
    assert PlaceIdUrl(id) == "https:" + "/" + "" + "/" + "www.google.com" + "/" + "maps" + "/" + "place" + "/" + tail;
    SixSegments("https:", "", "www.google.com", "maps", "place", tail);
  }

  // ---------------------------------------------------------------------
  // `get_slug_from_url`

  /** The fifth `/`-segment of the stripped URL, or `place-` followed by the
      clock reading `now` (a `%Y%m%d%H%M%S` text) when there are fewer than
      five. */
  function Slug(url: string, now: string): string {
    var parts := Split(Strip(url), '/');
    if |parts| > 4 then parts[4] else "place-" + now
  }

  /** A URL made of `/`-free segments is filed under its fifth segment. */
  lemma SlugOfSegments(parts: seq<string>, now: string)
    requires |parts| > 4 && forall i :: 0 <= i < |parts| ==> '/' !in parts[i]
    requires var url := Join(parts, '/'); url == [] || (!IsSpace(url[0]) && !IsSpace(url[|url| - 1]))
    ensures Slug(Join(parts, '/'), now) == parts[4]
  {
    StripUnpadded(Join(parts, '/'));
    SplitJoin(parts, '/');
  }

  /** Every place id URL is filed under the same slug, `place`, whatever
      the id. */
  lemma PlaceIdUrlSlug(id: string, now: string)
    requires '/' !in id && (id == [] || !IsSpace(id[|id| - 1]))
    ensures Slug(PlaceIdUrl(id), now) == "place"
  {
    var u := PlaceIdUrl(id);
    assert u[0] == 'h';
    assert u[|u| - 1] == if id == [] then ':' else id[|id| - 1];
    StripUnpadded(u);
    PlaceIdUrlSegments(id);
  }
}
