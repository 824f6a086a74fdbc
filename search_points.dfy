/** The search URLs generated from the corner points of squares: for every
    city, one URL per latitude, longitude and keyword of that city
    (`_gen_search_points_from_square`). */
module SearchPoints {
  import opened Wrappers
  import opened Strings
  import opened Urls
  import Places

  /** One line of the square-points table; coordinates are kept as the
      text Python prints for them. */
  datatype SquarePoint = SquarePoint(city: string, latitude: string, longitude: string)

  // ---------------------------------------------------------------------
  // `Series.unique()`: distinct values in order of first appearance

  /** Position of the first occurrence of `x` in `s`. */
  function FirstIndex(s: seq<string>, x: string): (i: nat)
    requires x in s
    ensures i < |s| && s[i] == x && x !in s[..i]
  {
    if s[0] == x then 0
    else
      var j := FirstIndex(s[1..], x);
      assert s[..j + 1] == [s[0]] + s[1..][..j];
      j + 1
  }

  function Unique(s: seq<string>): (u: seq<string>)
    ensures forall x :: x in u <==> x in s
    ensures forall i, j :: 0 <= i < j < |u| ==> u[i] != u[j]
    ensures |u| <= |s|
  {
    if s == [] then []
    else
      var u := Unique(s[..|s| - 1]);
      assert forall x :: x in s <==> x in s[..|s| - 1] || x == s[|s| - 1] by {
        assert s == s[..|s| - 1] + [s[|s| - 1]];
      }
      if s[|s| - 1] in u then u else u + [s[|s| - 1]]
  }

  /** A value first seen within the first `k` elements is first seen at the
      same place in the whole sequence. */
  lemma FirstIndexPrefix(s: seq<string>, k: nat, x: string)
    requires k <= |s| && x in s[..k]
    ensures FirstIndex(s, x) == FirstIndex(s[..k], x)
  {
    var i := FirstIndex(s[..k], x);
    var j := FirstIndex(s, x);
    assert s[..k][..i] == s[..i];
  }

  /** A value that appears only last is first seen last. */
  lemma FirstIndexLast(s: seq<string>)
    requires s != [] && s[|s| - 1] !in s[..|s| - 1]
    ensures FirstIndex(s, s[|s| - 1]) == |s| - 1
  {
  }

  /** The distinct values come in the order of their first appearance. */
  lemma {:induction false} UniqueOrder(s: seq<string>, i: int, j: int)
    requires 0 <= i < j < |Unique(s)|
    ensures FirstIndex(s, Unique(s)[i]) < FirstIndex(s, Unique(s)[j])
    decreases |s|
  {
    var t := s[..|s| - 1];
    var u := Unique(t);
    var x := s[|s| - 1];
    if j < |u| {
      UniqueOrder(t, i, j);
      FirstIndexPrefix(s, |s| - 1, u[i]);
      FirstIndexPrefix(s, |s| - 1, u[j]);
    } else {
      assert Unique(s)[j] == x && x !in t;
      FirstIndexPrefix(s, |s| - 1, u[i]);
      FirstIndexLast(s);
    }
  }

  // ---------------------------------------------------------------------
  // The URLs

  /** The search URL: longitude written before latitude, zoom 15. */
  function SearchUrl(keyword: string, longitude: string, latitude: string): string {
    SEARCH_PAGE + keyword + "/@" + longitude + "," + latitude + ",15z"
  }

  /** Seven `/`-free pieces joined by `/` split back into the pieces. */
  lemma SevenSegments(p0: string, p1: string, p2: string, p3: string, p4: string, p5: string, p6: string)
    requires '/' !in p0 && '/' !in p1 && '/' !in p2 && '/' !in p3 && '/' !in p4 && '/' !in p5 && '/' !in p6
    ensures Split(p0 + "/" + p1 + "/" + p2 + "/" + p3 + "/" + p4 + "/" + p5 + "/" + p6, '/')
         == [p0, p1, p2, p3, p4, p5, p6]
  {
    var s5 := p5 + ['/'] + p6;
    var s4 := p4 + ['/'] + s5;
    var s3 := p3 + ['/'] + s4;
    var s2 := p2 + ['/'] + s3;
    var s1 := p1 + ['/'] + s2;
    assert p0 + "/" + p1 + "/" + p2 + "/" + p3 + "/" + p4 + "/" + p5 + "/" + p6 == p0 + ['/'] + s1;
    SplitNoSep(p6, '/');
    SplitConcat(p5, '/', p6);
    SplitConcat(p4, '/', s5);
    SplitConcat(p3, '/', s4);
    SplitConcat(p2, '/', s3);
    SplitConcat(p1, '/', s2);
    SplitConcat(p0, '/', s1);
  }

  /** The search URL, cut at its slashes. */
  lemma SearchUrlPieces(keyword: string, longitude: string, latitude: string)
    ensures SearchUrl(keyword, longitude, latitude)
         == "https:" + "/" + "" + "/" + "www.google.com" + "/" + "maps" + "/" + "search" + "/" + keyword
            + "/" + ("@" + longitude + "," + latitude + "," + "15z")
  {
    SearchPagePieces();
  }

  /** Read back the way a place page URL is read, the seventh segment of a
      search URL gives the longitude where the latitude is expected, and
      the sixth is the keyword. */
  lemma SearchUrlSegments(keyword: string, longitude: string, latitude: string)
    requires '/' !in keyword && '/' !in longitude && '/' !in latitude
    requires ',' !in longitude && ',' !in latitude
    ensures |Split(SearchUrl(keyword, longitude, latitude), '/')| == 7
    ensures Split(SearchUrl(keyword, longitude, latitude), '/')[5] == keyword
    ensures Places.Coordinates(SearchUrl(keyword, longitude, latitude)) == Ok((longitude, latitude))
  {
    var last := "@" + longitude + "," + latitude + "," + "15z";
    assert '/' !in last;
    SearchUrlPieces(keyword, longitude, latitude);
    SevenSegments("https:", "", "www.google.com", "maps", "search", keyword, last);
    Places.CoordinatesOf(SearchUrl(keyword, longitude, latitude), longitude, latitude, "15z");
  }

  /** The triples for one latitude, keywords varying fastest. */
  function Row(lat: string, lons: seq<string>, kws: seq<string>): (p: seq<(string, string, string)>)
    ensures |p| == |lons| * |kws|
  {
    if lons == [] then []
    else seq(|kws|, k requires 0 <= k < |kws| => (lat, lons[0], kws[k])) + Row(lat, lons[1..], kws)
  }

  /** `itertools.product(latitudes, longitudes, keywords)`: the last factor
      varies fastest. */
  function Product(lats: seq<string>, lons: seq<string>, kws: seq<string>): (p: seq<(string, string, string)>)
    ensures |p| == |lats| * (|lons| * |kws|)
  {
    if lats == [] then [] else Row(lats[0], lons, kws) + Product(lats[1..], lons, kws)
  }

  /** The position of item `c` of block `b`, for blocks of `k`. */
  function Position(b: nat, c: nat, k: nat): nat {
    b * k + c
  }

  /** One block of `m` more. */
  lemma BlockStep(a: nat, m: nat)
    requires a > 0
    ensures a * m == m + (a - 1) * m && (a - 1) * m >= 0
  {
  }

  lemma {:induction false} RowAt(lat: string, lons: seq<string>, kws: seq<string>, b: nat, c: nat)
    requires b < |lons| && c < |kws|
    ensures b * |kws| + c < |lons| * |kws|
    ensures Row(lat, lons, kws)[b * |kws| + c] == (lat, lons[b], kws[c])
    decreases b
  {
    var K := |kws|;
    var head := seq(K, k requires 0 <= k < K => (lat, lons[0], kws[k]));
    var tail := Row(lat, lons[1..], kws);
    assert Row(lat, lons, kws) == head + tail;
    BlockStep(|lons|, K);
    if b > 0 {
      RowAt(lat, lons[1..], kws, b - 1, c);
      BlockStep(b, K);
      assert (head + tail)[K + ((b - 1) * K + c)] == tail[(b - 1) * K + c];
    } else {
      assert (head + tail)[c] == head[c];
    }
  }

  /** Block `a` of the product is the row of latitude `a`. */
  lemma {:induction false} ProductBlock(lats: seq<string>, lons: seq<string>, kws: seq<string>, a: nat, i: nat)
    requires a < |lats| && i < |lons| * |kws|
    ensures a * (|lons| * |kws|) + i < |Product(lats, lons, kws)|
    ensures Product(lats, lons, kws)[a * (|lons| * |kws|) + i] == Row(lats[a], lons, kws)[i]
    decreases a
  {
    var M := |lons| * |kws|;
    var row := Row(lats[0], lons, kws);
    var rest := Product(lats[1..], lons, kws);
    assert Product(lats, lons, kws) == row + rest;
    BlockStep(|lats|, M);
    if a > 0 {
      ProductBlock(lats[1..], lons, kws, a - 1, i);
      BlockStep(a, M);
      assert (row + rest)[M + ((a - 1) * M + i)] == rest[(a - 1) * M + i];
    } else {
      assert (row + rest)[i] == row[i];
    }
  }

  lemma ProductAt(lats: seq<string>, lons: seq<string>, kws: seq<string>, a: nat, b: nat, c: nat)
    requires a < |lats| && b < |lons| && c < |kws|
    ensures Position(a, Position(b, c, |kws|), |lons| * |kws|) < |Product(lats, lons, kws)|
    ensures Product(lats, lons, kws)[Position(a, Position(b, c, |kws|), |lons| * |kws|)] == (lats[a], lons[b], kws[c])
  {
    RowAt(lats[a], lons, kws, b, c);
    ProductBlock(lats, lons, kws, a, Position(b, c, |kws|));
  }

  /** Every point of `city`, in table order. */
  function InCity(points: seq<SquarePoint>, city: string): (r: seq<SquarePoint>)
    ensures forall i :: 0 <= i < |r| ==> r[i].city == city
    ensures forall p :: p in points && p.city == city ==> p in r
    ensures forall p :: p in r ==> p in points
  {
    if points == [] then []
    else
      var rest := InCity(points[1..], city);
      assert forall p :: p in points <==> p == points[0] || p in points[1..];
      if points[0].city == city then [points[0]] + rest else rest
  }

  function Cities(points: seq<SquarePoint>): seq<string> {
    Unique(seq(|points|, i requires 0 <= i < |points| => points[i].city))
  }

  function Latitudes(points: seq<SquarePoint>, city: string): seq<string> {
    var own := InCity(points, city);
    Unique(seq(|own|, i requires 0 <= i < |own| => own[i].latitude))
  }

  function Longitudes(points: seq<SquarePoint>, city: string): seq<string> {
    var own := InCity(points, city);
    Unique(seq(|own|, i requires 0 <= i < |own| => own[i].longitude))
  }

  /** One URL per triple of the product, in product order. */
  function ProductUrls(lats: seq<string>, lons: seq<string>, kws: seq<string>): (urls: seq<string>)
    ensures |urls| == |lats| * (|lons| * |kws|)
  {
    var p := Product(lats, lons, kws);
    seq(|p|, i requires 0 <= i < |p| => SearchUrl(p[i].2, p[i].1, p[i].0))
  }

  /** The URL at position (a, b, c) joins keyword c, longitude b and
      latitude a. */
  lemma ProductUrlAt(lats: seq<string>, lons: seq<string>, kws: seq<string>, a: nat, b: nat, c: nat)
    requires a < |lats| && b < |lons| && c < |kws|
    ensures Position(a, Position(b, c, |kws|), |lons| * |kws|) < |ProductUrls(lats, lons, kws)|
    ensures ProductUrls(lats, lons, kws)[Position(a, Position(b, c, |kws|), |lons| * |kws|)] == SearchUrl(kws[c], lons[b], lats[a])
  {
    ProductAt(lats, lons, kws, a, b, c);
  }

  /** The URLs of one city: its distinct latitudes, longitudes and the
      keywords, in product order. */
  function CityUrls(points: seq<SquarePoint>, city: string, kws: seq<string>): (urls: seq<string>)
    ensures |urls| == |Latitudes(points, city)| * (|Longitudes(points, city)| * |kws|)
  {
    ProductUrls(Latitudes(points, city), Longitudes(points, city), kws)
  }

  /** The number of URLs the cities in `cities` give. */
  function UrlCount(points: seq<SquarePoint>, cities: seq<string>, kws: seq<string>): nat {
    if cities == [] then 0
    else |Latitudes(points, cities[0])| * (|Longitudes(points, cities[0])| * |kws|)
         + UrlCount(points, cities[1..], kws)
  }

  /** The city blocks, one after the other. */
  function AllCityUrls(points: seq<SquarePoint>, cities: seq<string>, kws: seq<string>): (urls: seq<string>)
    ensures |urls| == UrlCount(points, cities, kws)
  {
    if cities == [] then [] else CityUrls(points, cities[0], kws) + AllCityUrls(points, cities[1..], kws)
  }

  /** `_gen_search_points_from_square(keyword_list)`, the table given. */
  function SearchUrls(points: seq<SquarePoint>, keywords: Option<seq<string>>): (urls: seq<string>)
    ensures |urls| == UrlCount(points, Cities(points), keywords.GetOr([]))
  {
    AllCityUrls(points, Cities(points), keywords.GetOr([]))
  }

  /** Without keywords no URL is generated, whatever the table holds. */
  lemma {:induction false} NoKeywordsNoUrls(points: seq<SquarePoint>, keywords: Option<seq<string>>)
    requires keywords.None? || keywords.value == []
    ensures SearchUrls(points, keywords) == []
  {
    ZeroCount(points, Cities(points), keywords.GetOr([]));
  }

  lemma {:induction false} ZeroCount(points: seq<SquarePoint>, cities: seq<string>, kws: seq<string>)
    requires kws == []
    ensures UrlCount(points, cities, kws) == 0
  {
    if cities != [] {
      ZeroCount(points, cities[1..], kws);
    }
  }

  /** The first city's block comes first. */
  lemma FirstCityFirst(points: seq<SquarePoint>, kws: seq<string>)
    requires points != []
    ensures var c := points[0].city;
      CityUrls(points, c, kws) <= SearchUrls(points, Some(kws))
  {
    var cs := seq(|points|, i requires 0 <= i < |points| => points[i].city);
    assert cs[0] in cs;
    if Cities(points)[0] != points[0].city {
      var j :| 0 <= j < |Cities(points)| && Cities(points)[j] == points[0].city;
      UniqueOrder(cs, 0, j);
    }
  }
}
