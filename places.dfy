/** Parsing a place page into the place's details (`__parse_place`) and the
    account record built from it (`get_account`). */
module Places {
  import opened Wrappers
  import opened Strings
  import opened Records
  import opened Reviews
  import opened Urls

  /** What the parser reads from a place page; None where the element or
      the attribute is absent. */
  datatype PlaceDoc = PlaceDoc(
    title: Option<string>,           // text of the heading
    ratingLabel: Option<string>,     // aria-label of the stars inside the rating box
    ratingBoxText: Option<string>,   // text of the rating box, "4.5(1,234)"
    photosText: Option<string>,      // text of the photo counter
    categoryText: Option<string>,    // text of the category button
    descriptionText: Option<string>, // text of the description box
    details: seq<string>,            // texts of the detail lines, in page order
    hoursLabel: Option<string>)      // aria-label of the opening-hours box

  /** The details of a place, as the dict `__parse_place` returns. */
  datatype Place = Place(
    name: Value,
    overallRating: Value,
    nReviews: Value,
    nPhotos: Value,
    category: Value,
    description: Value,
    address: Value,
    website: Value,
    phoneNumber: Value,
    plusCode: Value,
    openingHours: Value,
    url: Value,
    lat: Value,
    long: Value)

  /** Why the coordinates could not be read: the URL has fewer than seven
      `/`-segments, or the seventh does not split into exactly three
      `,`-parts. Neither is caught, so the whole parse fails. */
  datatype PlaceError = MissingSegment | BadCoordinates

  /** `text.strip()`, or None without the element. */
  function StrippedText(text: Option<string>): Value {
    match text
    case None => Null
    case Some(t) => Str(Strip(t))
  }

  /** `float(label.split(' ')[1])`: the second space-separated token when it
      is a decimal number, else None. */
  function OverallRating(stars: Option<string>): Value {
    match stars
    case None => Null
    case Some(l) =>
      var tokens := Split(l, ' ');
      if |tokens| > 1 && IsFloatText(tokens[1]) then Num(tokens[1]) else Null
  }

  /** `int(text.split('(')[1].replace(',', '').replace(')', ''))`, else 0. */
  function ReviewCount(box: Option<string>): Value {
    match box
    case None => Int(0)
    case Some(t) =>
      var parts := Split(t, '(');
      if |parts| > 1 then
        match ParseInt(RemoveChar(RemoveChar(parts[1], ','), ')'))
        case None => Int(0)
        case Some(n) => Int(n)
      else Int(0)
  }

  /** A rating box "before(n)" gives the count n. */
  lemma ReviewCountOf(before: string, n: nat)
    requires '(' !in before
    ensures ReviewCount(Some(before + "(" + Decimal(n) + ")")) == Int(n)
  {
    var d := NatDigits(n);
    var tail := d + ")";
    assert '(' !in tail && ',' !in tail && ')' !in d by {
      assert forall i :: 0 <= i < |tail| ==> tail[i] == ')' || IsDigit(tail[i]);
    }
    assert Split(before + "(" + d + ")", '(')[1] == tail by {
      assert before + "(" + d + ")" == before + ['('] + tail;
      SplitConcat(before, '(', tail);
      SplitNoSep(tail, '(');
    }
    assert RemoveChar(RemoveChar(tail, ','), ')') == d by {
      RemoveAbsent(tail, ',');
      RemoveConcat(d, ")", ')');
      RemoveAbsent(d, ')');
      assert RemoveChar(")", ')') == [];
    }
    ParseDecimal(n);
  }

  /** `int(text.replace('.', '').replace(',', '').split(' ')[0])`, else 0. */
  function PhotoCount(counter: Option<string>): Value {
    match counter
    case None => Int(0)
    case Some(t) =>
      match ParseInt(Split(RemoveChar(RemoveChar(t, '.'), ','), ' ')[0])
      case None => Int(0)
      case Some(n) => Int(n)
  }

  /** A photo counter "n photos" gives the count n. */
  lemma PhotoCountOf(n: nat, rest: string)
    requires '.' !in rest && ',' !in rest
    ensures PhotoCount(Some(Decimal(n) + " " + rest)) == Int(n)
  {
    var d := Decimal(n);
    assert AllDigits(d);
    assert '.' !in d + " " + rest && ',' !in d + " " + rest;
    RemoveAbsent(d + " " + rest, '.');
    RemoveAbsent(d + " " + rest, ',');
    assert d + " " + rest == d + [' '] + rest;
    assert ' ' !in d;
    SplitConcat(d, ' ', rest);
    ParseDecimal(n);
  }

  /** U+202F, which the site puts inside times of day. */
  const NARROW_NBSP: char := '\U{202F}'

  /** `b_list[i].text`, or None when the page has fewer detail lines. */
  function Detail(details: seq<string>, i: nat): Value {
    if i < |details| then Str(details[i]) else Null
  }

  /** `hours.replace('\u202f', ' ')`: narrow no-break spaces become spaces. */
  function OpeningHours(hours: Option<string>): Value {
    match hours
    case None => Null
    case Some(h) => Str(ReplaceChar(h, NARROW_NBSP, ' '))
  }

  /** `s[1:]`. */
  function DropFirst(s: string): string {
    if s == [] then [] else s[1..]
  }

  /** `lat, long, z = url.split('/')[6].split(',')`, with the first character
      of `lat` (the `@`) dropped. */
  function Coordinates(url: string): (r: Result<(string, string), PlaceError>)
    ensures r.Err? <==> |Split(url, '/')| <= 6 || |Split(Split(url, '/')[6], ',')| != 3
    ensures r.Ok? ==> ',' !in r.value.0 && ',' !in r.value.1
  {
    var segments := Split(url, '/');
    if |segments| <= 6 then Err(MissingSegment)
    else
      var parts := Split(segments[6], ',');
      if |parts| != 3 then Err(BadCoordinates)
      else Ok((DropFirst(parts[0]), parts[1]))
  }

  /** A URL whose seventh segment is "@lat,long,zoom" gives lat and long. */
  lemma CoordinatesOf(url: string, lat: string, long: string, zoom: string)
    requires |Split(url, '/')| > 6 && Split(url, '/')[6] == "@" + lat + "," + long + "," + zoom
    requires ',' !in lat && ',' !in long && ',' !in zoom
    ensures Coordinates(url) == Ok((lat, long))
  {
    var parts := ["@" + lat, long, zoom];
    assert Join(parts, ',') == "@" + lat + "," + long + "," + zoom by {
      assert Join(parts[2..], ',') == zoom;
      assert Join(parts[1..], ',') == long + [','] + zoom;
    }
    assert forall i :: 0 <= i < |parts| ==> ',' !in parts[i];
    SplitJoin(parts, ',');
    assert DropFirst("@" + lat) == lat;
  }

  /** A URL with at most six `/`-segments has no coordinates. */
  lemma FewSegmentsNoCoordinates(url: string)
    requires |Split(url, '/')| <= 6
    ensures Coordinates(url) == Err(MissingSegment)
  {
  }

  /** A place URL of the `?q=place_id:` form has only six segments, so the
      coordinates cannot be read and the parse fails. */
  lemma PlaceIdUrlHasNoCoordinates(id: string)
    requires '/' !in id
    ensures Coordinates(PlaceIdUrl(id)) == Err(MissingSegment)
  {
    PlaceIdUrlSegments(id);
    FewSegmentsNoCoordinates(PlaceIdUrl(id));
  }

  /** `__parse_place`: every field but the coordinates has its own fallback;
      a URL without readable coordinates fails the whole parse. */
  function ParsePlace(doc: PlaceDoc, url: string): (r: Result<Place, PlaceError>)
    ensures r.Err? <==> Coordinates(url).Err?
    ensures r.Ok? ==>
      && r.value.url == Str(url)
      && r.value.lat == Str(Coordinates(url).value.0)
      && r.value.long == Str(Coordinates(url).value.1)
  {
    match Coordinates(url)
    case Err(e) => Err(e)
    case Ok((lat, long)) =>
      Ok(Place(
        name := StrippedText(doc.title),
        overallRating := OverallRating(doc.ratingLabel),
        nReviews := ReviewCount(doc.ratingBoxText),
        nPhotos := PhotoCount(doc.photosText),
        category := StrippedText(doc.categoryText),
        description := StrippedText(doc.descriptionText),
        address := Detail(doc.details, 0),
        website := Detail(doc.details, 1),
        phoneNumber := Detail(doc.details, 2),
        plusCode := Detail(doc.details, 3),
        openingHours := OpeningHours(doc.hoursLabel),
        url := Str(url),
        lat := Str(lat),
        long := Str(long)))
  }

  /** The four detail fields are the first four detail lines by position,
      each present exactly when the page has that many lines. */
  lemma DetailsByPosition(doc: PlaceDoc, url: string)
    requires Coordinates(url).Ok?
    ensures var p := ParsePlace(doc, url).value;
      && (p.address != Null <==> |doc.details| > 0)
      && (p.website != Null <==> |doc.details| > 1)
      && (p.phoneNumber != Null <==> |doc.details| > 2)
      && (p.plusCode != Null <==> |doc.details| > 3)
      && (|doc.details| > 0 ==> p.address == Str(doc.details[0]))
      && (|doc.details| > 1 ==> p.website == Str(doc.details[1]))
      && (|doc.details| > 2 ==> p.phoneNumber == Str(doc.details[2]))
      && (|doc.details| > 3 ==> p.plusCode == Str(doc.details[3]))
  {
  }

  /** A page that lacks the website line shifts the later lines up: the
      phone number is read as the website and the plus code as the phone
      number. */
  lemma MissingWebsiteShifts(doc: PlaceDoc, url: string, address: string, phone: string, plusCode: string)
    requires Coordinates(url).Ok?
    requires doc.details == [address, phone, plusCode]
    ensures var p := ParsePlace(doc, url).value;
      && p.address == Str(address)
      && p.website == Str(phone)
      && p.phoneNumber == Str(plusCode)
      && p.plusCode == Null
  {
  }

  /** Text fields are stripped, and the opening hours keep their length
      with no narrow no-break space left. */
  lemma TextFieldsCleaned(doc: PlaceDoc, url: string)
    requires Coordinates(url).Ok?
    ensures var p := ParsePlace(doc, url).value;
      && (p.name.Str? ==> p.name.s == [] || (!IsSpace(p.name.s[0]) && !IsSpace(p.name.s[|p.name.s| - 1])))
      && (p.openingHours.Str? ==>
            NARROW_NBSP !in p.openingHours.s && |p.openingHours.s| == |doc.hoursLabel.value|)
  {
    if doc.hoursLabel.Some? {
      var h := ReplaceChar(doc.hoursLabel.value, NARROW_NBSP, ' ');
      assert forall i :: 0 <= i < |h| ==> h[i] != NARROW_NBSP;
    }
  }

  /** The place record `get_account` returns: the details and the place id
      found in the URL. */
  datatype Account = Account(place: Place, placeId: Value)

  /** `get_account`: the page at `url`, parsed, with its place id. */
  function GetAccount(doc: PlaceDoc, url: string): (r: Result<Account, PlaceError>)
    ensures r.Err? <==> ParsePlace(doc, url).Err?
    ensures r.Ok? ==> r.value.place == ParsePlace(doc, url).value && r.value.placeId == PlaceIdValue(url)
  {
    match ParsePlace(doc, url)
    case Err(e) => Err(e)
    case Ok(p) => Ok(Account(p, PlaceIdValue(url)))
  }

  /** The account of a place given by its id cannot be fetched: its URL has
      no coordinates segment. */
  lemma AccountByIdFails(doc: PlaceDoc, id: string)
    requires '/' !in id
    ensures GetAccount(doc, PlaceIdUrl(id)) == Err(MissingSegment)
  {
    PlaceIdUrlHasNoCoordinates(id);
  }
}
