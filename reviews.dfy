/** Parsing one review block of a place page into a review record, and the
    list of records a page yields from a given offset, tagged with the place
    id found in the page URL. */
module Reviews {
  import opened Wrappers
  import opened Strings
  import opened Calendar
  import opened Records
  import opened RelativeDates
  import opened Urls

  // ---------------------------------------------------------------------
  // Cleaning review text

  /** Carriage returns, line feeds and tabs become spaces. */
  function FilterString(s: string): (r: string)
    ensures |r| == |s|
    ensures forall i :: 0 <= i < |s| ==>
      r[i] == if s[i] == '\r' || s[i] == '\n' || s[i] == '\t' then ' ' else s[i]
  {
    ReplaceChar(ReplaceChar(ReplaceChar(s, '\r', ' '), '\n', ' '), '\t', ' ')
  }

  /** The cleaned text holds no carriage return, line feed or tab. */
  lemma FilterStringClean(s: string)
    ensures '\r' !in FilterString(s) && '\n' !in FilterString(s) && '\t' !in FilterString(s)
  {
    var r := FilterString(s);
    forall i | 0 <= i < |r|
      ensures r[i] != '\r' && r[i] != '\n' && r[i] != '\t'
    {
    }
  }

  /** Cleaning twice is cleaning once. */
  lemma FilterStringIdempotent(s: string)
    ensures FilterString(FilterString(s)) == FilterString(s)
  {
  }

  // ---------------------------------------------------------------------
  // The place id in a URL (`re.search(r'q=place_id:([^&]+)', url)`)

  /** The pattern matches at `i`: the marker, then at least one character
      other than `&`. */
  predicate MatchAt(url: string, i: int) {
    OccursAt(url, MARKER, i) && i + |MARKER| < |url| && url[i + |MARKER|] != '&'
  }

  /** The longest prefix of `s` without `&`. */
  function RunNoAmp(s: string): (r: string)
    ensures |r| <= |s| && r == s[..|r|] && '&' !in r
    ensures |r| == |s| || s[|r|] == '&'
  {
    if s == [] || s[0] == '&' then []
    else
      var t := RunNoAmp(s[1..]);
      assert [s[0]] + t == s[..|t| + 1];
      [s[0]] + t
  }

  /** The leftmost position at or after `from` where the pattern matches. */
  function FirstMatch(url: string, from: nat): (r: Option<nat>)
    ensures r.Some? ==> from <= r.value && MatchAt(url, r.value)
    ensures r.Some? ==> forall j :: from <= j < r.value ==> !MatchAt(url, j)
    ensures r.None? ==> forall j :: from <= j ==> !MatchAt(url, j)
    decreases |url| - from
  {
    if from >= |url| then None
    else if MatchAt(url, from) then Some(from)
    else FirstMatch(url, from + 1)
  }

  /** The place id of a URL: None when the pattern matches nowhere
      (including when the marker is absent); otherwise the longest run of
      non-`&` characters after the leftmost match of the marker. */
  function ExtractPlaceId(url: string): (r: Option<string>)
    ensures r.Some? <==> exists i :: MatchAt(url, i)
    ensures r.Some? ==> r.value != [] && '&' !in r.value
    ensures r.Some? ==>
      exists i :: && MatchAt(url, i)
                  && (forall j :: 0 <= j < i ==> !MatchAt(url, j))
                  && r.value == RunNoAmp(url[i + |MARKER|..])
  {
    if !Contains(url, MARKER) then None
    else
      match FirstMatch(url, 0)
      case None => None
      case Some(i) => Some(RunNoAmp(url[i + |MARKER|..]))
  }

  /** An id free of `&` followed by nothing or by `&` is the whole run. */
  lemma RunNoAmpOf(id: string, rest: string)
    requires '&' !in id
    requires rest == [] || rest[0] == '&'
    ensures RunNoAmp(id + rest) == id
  {
    var s := id + rest;
    assert s[..|id|] == id;
  }

  /** The pattern matches nowhere inside a text without `q`. */
  lemma NoMatchWithoutQ(url: string, p: string)
    requires 'q' !in p && p <= url
    ensures forall j :: 0 <= j < |p| ==> !MatchAt(url, j)
  {
    forall j | 0 <= j < |p|
      ensures !MatchAt(url, j)
    {
      assert url[j] == p[j];
    }
  }

  /** A URL whose text before the marker has no `q`, followed by an id
      without `&` and then nothing or an `&`, yields exactly that id. */
  lemma ExtractPlaceIdOf(p: string, id: string, rest: string)
    requires 'q' !in p
    requires id != [] && '&' !in id
    requires rest == [] || rest[0] == '&'
    ensures ExtractPlaceId(p + MARKER + id + rest) == Some(id)
  {
    var url := p + MARKER + id + rest;
    var i := |p|;
    assert MatchAt(url, i) by {
      assert url[i..i + |MARKER|] == MARKER;
      assert url[i + |MARKER|] == id[0];
    }
    ContainsAt(url, MARKER, i);
    NoMatchWithoutQ(url, p);
    assert url[i + |MARKER|..] == id + rest;
    RunNoAmpOf(id, rest);
  }

  /** Extracting the id from the URL built for it gives the id back, for
      any non-empty id without `&`. */
  lemma PlaceIdRoundTrip(id: string)
    requires id != [] && '&' !in id
    ensures ExtractPlaceId(PlaceIdUrl(id)) == Some(id)
  {
    ExtractPlaceIdOf(PLACE_PAGE, id, []);
    assert PLACE_PAGE + MARKER + id + [] == PlaceIdUrl(id);
  }

  /** The value stored for a place id. */
  function PlaceIdValue(url: string): Value {
    match ExtractPlaceId(url)
    case None => Null
    case Some(id) => Str(id)
  }

  // ---------------------------------------------------------------------
  // One review block

  /** What the parser reads from one review block; None where the
      attribute or the element is absent. */
  datatype ReviewBlock = ReviewBlock(
    reviewId: Option<string>,          // attribute data-review-id
    ariaLabel: Option<string>,         // attribute aria-label: the reviewer's name
    placeId: Option<string>,           // attribute place_id
    captionText: Option<string>,       // text of the review body span
    starsLabel: Option<string>,        // aria-label of the star-rating span
    relativeDateText: Option<string>,  // text of the relative-date span
    reviewerInfoText: Option<string>)  // text of the reviewer-statistics div

  function OptStr(o: Option<string>): Value {
    match o
    case None => Null
    case Some(s) => Str(s)
  }

  /** The cleaned caption, or None without a body span. */
  function Caption(text: Option<string>): Value {
    match text
    case None => Null
    case Some(t) => Str(FilterString(t))
  }

  /** `float(label.split(' ')[0])`: the first space-separated token when it
      is a decimal number, else None. */
  function Rating(stars: Option<string>): Value {
    match stars
    case None => Null
    case Some(l) =>
      var token := Split(l, ' ')[0];
      if IsFloatText(token) then Num(token) else Null
  }

  /** The rating is read from the first token of the label only. */
  lemma RatingToken(token: string, rest: string)
    requires ' ' !in token
    ensures Rating(Some(token + " " + rest)) == if IsFloatText(token) then Num(token) else Null
  {
    SplitConcat(token, ' ', rest);
  }

  /** `info.split(' ')[3]`, or 0 when the text or the fourth token is missing. */
  function ReviewerReviews(info: Option<string>): Value {
    match info
    case None => Int(0)
    case Some(t) =>
      var tokens := Split(t, ' ');
      if |tokens| > 3 then Str(tokens[3]) else Int(0)
  }

  /** The fourth space-separated token is taken, as text; with fewer than
      four tokens the count falls back to 0. */
  lemma ReviewerReviewsToken(tokens: seq<string>)
    requires |tokens| >= 1 && forall i :: 0 <= i < |tokens| ==> ' ' !in tokens[i]
    ensures ReviewerReviews(Some(Join(tokens, ' '))) == if |tokens| > 3 then Str(tokens[3]) else Int(0)
  {
    SplitJoin(tokens, ' ');
  }

  /** The date value stored in a record. */
  function InstantValue(t: Option<DateTime>): Value {
    match t
    case None => Null
    case Some(d) => Instant(d)
  }

  /** A parsed review: the dict `__parse` returns, one entry per column
      of the review table. */
  datatype Review = Review(
    idReview: Value,
    caption: Value,
    relativeDate: Value,
    reviewDate: Value,
    retrievalDate: Value,
    rating: Value,
    username: Value,
    nReviewUser: Value,
    placeId: Value)

  /** `__parse`: the review read from one block, with `reference` the clock
      reading the relative date is taken from and `stamp` the retrieval
      time. Every field has its own fallback, so parsing never fails. */
  function ParseReview(b: ReviewBlock, reference: DateTime, stamp: DateTime): Review
    requires ValidDateTime(reference)
  {
    var dates := Normalize(b.relativeDateText, reference);
    Review(
      idReview := OptStr(b.reviewId),
      caption := Caption(b.captionText),
      relativeDate := OptStr(dates.relativeDate),
      reviewDate := InstantValue(dates.reviewDate),
      retrievalDate := Instant(stamp),
      rating := Rating(b.starsLabel),
      username := OptStr(b.ariaLabel),
      nReviewUser := ReviewerReviews(b.reviewerInfoText),
      placeId := OptStr(b.placeId))
  }

  /** Each field depends on its own part of the block only, so a missing
      part affects that field alone; the retrieval time is the clock
      reading alone. */
  lemma FieldsIndependent(b1: ReviewBlock, b2: ReviewBlock, reference: DateTime, stamp: DateTime)
    requires ValidDateTime(reference)
    ensures var r1, r2 := ParseReview(b1, reference, stamp), ParseReview(b2, reference, stamp);
      && (b1.reviewId == b2.reviewId ==> r1.idReview == r2.idReview)
      && (b1.ariaLabel == b2.ariaLabel ==> r1.username == r2.username)
      && (b1.placeId == b2.placeId ==> r1.placeId == r2.placeId)
      && (b1.captionText == b2.captionText ==> r1.caption == r2.caption)
      && (b1.starsLabel == b2.starsLabel ==> r1.rating == r2.rating)
      && (b1.relativeDateText == b2.relativeDateText ==>
            r1.relativeDate == r2.relativeDate && r1.reviewDate == r2.reviewDate)
      && (b1.reviewerInfoText == b2.reviewerInfoText ==> r1.nReviewUser == r2.nReviewUser)
      && r1.retrievalDate == r2.retrievalDate == Instant(stamp)
  {
  }

  /** The two date fields are set together or cleared together; a set
      review date is a valid instant at the reference's time of day. */
  lemma DatesTogether(b: ReviewBlock, reference: DateTime, stamp: DateTime)
    requires ValidDateTime(reference)
    ensures var r := ParseReview(b, reference, stamp);
      && (r.relativeDate == Null <==> r.reviewDate == Null)
      && (r.relativeDate != Null ==> r.relativeDate == OptStr(b.relativeDateText))
      && (r.reviewDate.Instant? ==>
            ValidDateTime(r.reviewDate.t) && r.reviewDate.t.micros == reference.micros)
  {
  }

  /** A block with nothing in it gives the fallbacks: None everywhere,
      0 reviews for the reviewer, and the retrieval time. */
  lemma EmptyBlock(reference: DateTime, stamp: DateTime)
    requires ValidDateTime(reference)
    ensures ParseReview(ReviewBlock(None, None, None, None, None, None, None), reference, stamp)
         == Review(Null, Null, Null, Null, Instant(stamp), Null, Null, Int(0), Null)
  {
  }

  /** The dict form of a review. */
  function AsRecord(rv: Review): (r: Record)
    ensures r.Keys == set k | k in HEADER
  {
    map[
      "id_review" := rv.idReview,
      "caption" := rv.caption,
      "relative_date" := rv.relativeDate,
      "review_date" := rv.reviewDate,
      "retrieval_date" := rv.retrievalDate,
      "rating" := rv.rating,
      "username" := rv.username,
      "n_review_user" := rv.nReviewUser,
      "place_id" := rv.placeId]
  }

  /** Written under the review table's header, a review's line holds its
      fields in declaration order. */
  lemma ReviewRow(rv: Review)
    ensures Row(AsRecord(rv), HEADER)
         == [rv.idReview, rv.caption, rv.relativeDate, rv.reviewDate, rv.retrievalDate,
             rv.rating, rv.username, rv.nReviewUser, rv.placeId]
  {
  }

  // ---------------------------------------------------------------------
  // A page of reviews

  /** The first index taken for a given offset. */
  function Start(offset: int, n: nat): (s: nat)
    ensures s <= n
    ensures offset <= 0 ==> s == 0
    ensures 0 <= offset <= n ==> s == offset
    ensures offset >= n ==> s == n
  {
    if offset <= 0 then 0 else if offset >= n then n else offset
  }

  /** The review for the block at index `i`, its place id replaced by the
      one in the URL. The clock is read twice per block: readings `2 i`
      and `2 i + 1`. */
  function Tagged(b: ReviewBlock, i: nat, url: string, now: nat -> DateTime): Review
    requires ValidDateTime(now(2 * i))
  {
    ParseReview(b, now(2 * i), now(2 * i + 1)).(placeId := PlaceIdValue(url))
  }

  /** The tagged reviews of the blocks at indices `lo` to `hi - 1`, in page order. */
  function Page(blocks: seq<ReviewBlock>, lo: nat, hi: nat, url: string, now: nat -> DateTime)
    : (page: seq<Review>)
    requires lo <= hi <= |blocks|
    requires forall k :: ValidDateTime(now(k))
    ensures |page| == hi - lo
    decreases hi - lo
  {
    if hi == lo then []
    else Page(blocks, lo, hi - 1, url, now) + [Tagged(blocks[hi - 1], hi - 1, url, now)]
  }

  /** The `i`-th review of a page comes from block `lo + i`. */
  lemma {:induction false} PageAt(blocks: seq<ReviewBlock>, lo: nat, hi: nat, url: string, now: nat -> DateTime, i: nat)
    requires lo <= hi <= |blocks| && forall k :: ValidDateTime(now(k))
    requires i < hi - lo
    ensures Page(blocks, lo, hi, url, now)[i] == Tagged(blocks[lo + i], lo + i, url, now)
    decreases hi - lo
  {
    if i < hi - 1 - lo {
      PageAt(blocks, lo, hi - 1, url, now, i);
    }
  }

  /** `get_reviews`: the blocks from index `offset` on, in page order, each
      parsed and tagged with the URL's place id (None when the URL has
      none), whatever place id the block itself carried. Blocks without an
      id are kept. */
  method GetReviews(blocks: seq<ReviewBlock>, offset: int, url: string, now: nat -> DateTime)
    returns (parsed: seq<Review>)
    requires forall k :: ValidDateTime(now(k))
    ensures parsed == Page(blocks, Start(offset, |blocks|), |blocks|, url, now)
    ensures |parsed| == |blocks| - Start(offset, |blocks|)
    ensures forall i :: 0 <= i < |parsed| ==>
      && parsed[i].placeId == PlaceIdValue(url)
      && parsed[i].idReview == OptStr(blocks[Start(offset, |blocks|) + i].reviewId)
  {
    var placeId := PlaceIdValue(url);
    parsed := [];
    var index := 0;
    while index < |blocks|
      invariant 0 <= index <= |blocks|
      invariant parsed == Page(blocks, Start(offset, index), index, url, now)
    {
      if index >= offset {
        var r := ParseReview(blocks[index], now(2 * index), now(2 * index + 1));
        r := r.(placeId := placeId);
        parsed := parsed + [r];
      }
      index := index + 1;
    }
    forall i | 0 <= i < |parsed|
      ensures parsed[i].placeId == PlaceIdValue(url)
      ensures parsed[i].idReview == OptStr(blocks[Start(offset, |blocks|) + i].reviewId)
    {
      PageAt(blocks, Start(offset, |blocks|), |blocks|, url, now, i);
    }
  }
}
