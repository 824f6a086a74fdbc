/** The date recovery script: read the combined review table, list the
    reviews stored without a `review_date`, and for each of them search its
    place's reviews, sorted by newest, page by page until a review with
    the same id turns up or a page comes back empty. The store is a
    parameter (None when the table cannot be read); the browser is
    replaced by per-row oracles. */
module Recovery {
  import opened Wrappers
  import opened Strings
  import opened Records
  import opened Urls
  import opened Browser
  import opened Pagination

  /** The table the reviews are read from. */
  const SOURCE_KEY: string := "combined/all_4_naturals_salons.csv"
  /** Where the list of rows without a date is uploaded. */
  const MISSING_KEY: string := "monitoring/reviews_missing_dates.csv"
  /** Where the recovered dates are uploaded. */
  const OUTPUT_KEY: string := "monitoring/recovered_review_dates.csv"

  const ID_REVIEW: string := "id_review"
  const PLACE_ID: string := "place_id"
  const REVIEW_DATE: string := "review_date"
  const RELATIVE_DATE: string := "relative_date"

  /** The sort menu item for "newest". */
  const NEWEST: int := 1

  // ---------------------------------------------------------------------
  // Step 2: the rows without a date

  /** `df[df['review_date'].isna()]`: the rows whose date is NaN, in table
      order. */
  function MissingRows(df: seq<Record>): (missing: seq<Record>)
    ensures forall r :: r in missing <==> r in df && Get(r, REVIEW_DATE) == Null
    ensures |missing| <= |df|
  {
    if df == [] then []
    else if Get(df[0], REVIEW_DATE) == Null then [df[0]] + MissingRows(df[1..])
    else MissingRows(df[1..])
  }

  /** Filtering keeps the order of the rows: the rows of a table made of
      two parts are the rows of the first part, then those of the second. */
  lemma {:induction false} MissingRowsAppend(a: seq<Record>, b: seq<Record>)
    ensures MissingRows(a + b) == MissingRows(a) + MissingRows(b)
  {
    if a != [] {
      assert (a + b)[0] == a[0] && (a + b)[1..] == a[1..] + b;
      MissingRowsAppend(a[1..], b);
    } else {
      assert a + b == b;
    }
  }

  /** Steps 1 and 2: nothing when the table cannot be read (the script
      exits) or has no `review_date` column (the filter raises); otherwise
      the rows without a date, which are also what is uploaded under
      `MISSING_KEY`. */
  function MissingList(stored: Option<Table>): (missing: Option<seq<Record>>)
    ensures missing.Some? <==> stored.Some? && REVIEW_DATE in stored.value.header
    ensures missing.Some? ==> forall r :: r in missing.value <==> r in FromTable(stored.value) && Get(r, REVIEW_DATE) == Null
  {
    if stored.None? || REVIEW_DATE !in stored.value.header then None
    else Some(MissingRows(FromTable(stored.value)))
  }

  /** A row read back from a table written with a date in column `j` is
      not listed as missing. */
  lemma DatedRowNotMissing(records: seq<Record>, headers: seq<string>, i: int, j: int)
    requires Distinct(headers) && 0 <= i < |records| && 0 <= j < |headers| && headers[j] == REVIEW_DATE
    requires REVIEW_DATE in records[i] && records[i][REVIEW_DATE] != Null && records[i][REVIEW_DATE] != Str("")
    ensures FromTable(ToTable(records, headers))[i] !in MissingRows(FromTable(ToTable(records, headers)))
  {
    ReadBack(records, headers, i, j);
  }

  // ---------------------------------------------------------------------
  // Step 3: the search for one row

  /** `r.get('id_review') == review_id`. A missing id (NaN) equals
      nothing, not even another NaN. */
  predicate Matches(r: Record, id: Value) {
    id != Null && Get(r, ID_REVIEW) == id
  }

  /** The first record of `rs` with the id, if any. */
  function FirstWithId(rs: seq<Record>, id: Value): (hit: Option<Record>)
    ensures hit.Some? <==> exists j :: 0 <= j < |rs| && Matches(rs[j], id)
    ensures hit.Some? ==> hit.value in rs && Matches(hit.value, id)
  {
    if rs == [] then None
    else if Matches(rs[0], id) then Some(rs[0])
    else FirstWithId(rs[1..], id)
  }

  /** The match found in two parts is the first part's, when it has one. */
  lemma {:induction false} FirstWithIdAppend(a: seq<Record>, b: seq<Record>, id: Value)
    ensures FirstWithId(a + b, id) == if FirstWithId(a, id).Some? then FirstWithId(a, id) else FirstWithId(b, id)
  {
    if a != [] {
      assert (a + b)[0] == a[0] && (a + b)[1..] == a[1..] + b;
      FirstWithIdAppend(a[1..], b, id);
    } else {
      assert a + b == b;
    }
  }

  /** The match found comes before every other record with the id. */
  lemma {:induction false} FirstWithIdIsFirst(rs: seq<Record>, id: Value, j: int)
    requires 0 <= j < |rs| && Matches(rs[j], id)
    ensures FirstWithId(rs, id).Some?
    ensures exists l :: 0 <= l <= j && rs[l] == FirstWithId(rs, id).value
  {
    if !Matches(rs[0], id) {
      FirstWithIdIsFirst(rs[1..], id, j - 1);
      var l :| 0 <= l <= j - 1 && rs[1..][l] == FirstWithId(rs[1..], id).value;
      assert rs[l + 1] == FirstWithId(rs, id).value;
    }
  }

  /** The page of row `i` holds no review from offset `size` on. */
  ghost predicate Bounded(batch: (nat, int) -> seq<Record>, i: nat, size: nat) {
    forall o: int :: o >= size ==> batch(i, o) == []
  }

  /** The `while not found` loop for row `i`, from `offset` on: the first
      review with the id on the first page that has one, or nothing when a
      page comes back empty first. */
  ghost function Search(batch: (nat, int) -> seq<Record>, i: nat, id: Value, offset: int, size: nat): (hit: Option<Record>)
    requires Bounded(batch, i, size)
    ensures hit.Some? ==> Matches(hit.value, id)
    decreases if offset < size then size - offset else 0
  {
    var reviews := batch(i, offset);
    if reviews == [] then None
    else if FirstWithId(reviews, id).Some? then FirstWithId(reviews, id)
    else Search(batch, i, id, offset + |reviews|, size)
  }

  /** A non-empty page without a match sends the search to the next offset. */
  lemma SearchSkips(batch: (nat, int) -> seq<Record>, i: nat, id: Value, offset: int, size: nat)
    requires Bounded(batch, i, size) && batch(i, offset) != [] && FirstWithId(batch(i, offset), id).None?
    ensures Search(batch, i, id, offset, size) == Search(batch, i, id, offset + |batch(i, offset)|, size)
  {
  }

  /** A row whose id is NaN is never found. */
  lemma {:induction false} NullIdNotFound(batch: (nat, int) -> seq<Record>, i: nat, offset: int, size: nat)
    requires Bounded(batch, i, size)
    ensures Search(batch, i, Null, offset, size).None?
    decreases if offset < size then size - offset else 0
  {
    var reviews := batch(i, offset);
    if reviews != [] {
      NullIdNotFound(batch, i, offset + |reviews|, size);
    }
  }

  /** The `for r in reviews` loop: the first review of the page with the
      id. */
  method ScanPage(reviews: seq<Record>, id: Value) returns (hit: Option<Record>)
    ensures hit == FirstWithId(reviews, id)
  {
    var j := 0;
    while j < |reviews|
      invariant 0 <= j <= |reviews|
      invariant FirstWithId(reviews, id) == FirstWithId(reviews[j..], id)
    {
      if Get(reviews[j], ID_REVIEW) == id && id != Null {
        return Some(reviews[j]);
      }
      assert reviews[j..][1..] == reviews[j + 1..];
      j := j + 1;
    }
    return None;
  }

  /** The pages fetched so far, each at the offset where the ones before
      it end, are all non-empty and hold no match. */
  predicate NoMatchYet(page: int -> seq<Record>, pages: seq<seq<Record>>, id: Value) {
    && Fetched(page, pages)
    && (forall k :: 0 <= k < |pages| ==> pages[k] != [] && FirstWithId(pages[k], id).None?)
    && FirstWithId(Concat(pages), id).None?
  }

  /** The page fetched next, at the end of the pages before it, extends
      them; the first match of them all is that page's. */
  lemma NextPage(page: int -> seq<Record>, pages: seq<seq<Record>>, id: Value, reviews: seq<Record>)
    requires NoMatchYet(page, pages, id) && reviews == page(|Concat(pages)|)
    ensures Fetched(page, pages + [reviews]) && Concat(pages + [reviews]) == Concat(pages) + reviews
    ensures forall k :: 0 <= k < |pages| ==> (pages + [reviews])[k] != [] && FirstWithId((pages + [reviews])[k], id).None?
    ensures FirstWithId(Concat(pages + [reviews]), id) == FirstWithId(reviews, id)
    ensures reviews != [] && FirstWithId(reviews, id).None? ==> NoMatchYet(page, pages + [reviews], id)
  {
    ConcatSnoc(pages, reviews);
    FirstWithIdAppend(Concat(pages), reviews, id);
    assert (pages + [reviews])[..|pages|] == pages;
  }

  /** The search for row `i`: the match found, and the pages fetched. The
      pages are fetched at offsets advancing by each page's length; every
      page before the last is non-empty and holds no match; the search
      ends at the first match or at an empty page. */
  method SearchRow(batch: (nat, int) -> seq<Record>, i: nat, id: Value, ghost size: nat)
    returns (hit: Option<Record>, pages: seq<seq<Record>>)
    requires Bounded(batch, i, size)
    ensures hit == Search(batch, i, id, 0, size)
    ensures pages != [] && Fetched((o: int) => batch(i, o), pages)
    ensures forall k :: 0 <= k < |pages| - 1 ==> pages[k] != [] && FirstWithId(pages[k], id).None?
    ensures hit == FirstWithId(Concat(pages), id)
    ensures hit.None? <==> pages[|pages| - 1] == []
  {
    var page := (o: int) => batch(i, o);
    var offset := 0;
    pages := [];
    hit := None;
    while true
      invariant hit.None? && offset == |Concat(pages)|
      invariant Search(batch, i, id, 0, size) == Search(batch, i, id, offset, size)
      invariant NoMatchYet(page, pages, id)
      decreases if offset < size then size - offset else 0
    {
      var reviews := page(offset);
      assert reviews == batch(i, offset);
      NextPage(page, pages, id, reviews);
      pages := pages + [reviews];
      if reviews == [] {
        return;
      }
      hit := ScanPage(reviews, id);
      if hit.Some? {
        return;
      }
      assert NoMatchYet(page, pages, id);
      SearchSkips(batch, i, id, offset, size);
      offset := offset + |reviews|;
    }
  }

  // ---------------------------------------------------------------------
  // Step 3: the entry for a found review

  /** Python's `a or b`. */
  function Or(a: Value, b: Value): Value {
    if Truthy(a) then a else b
  }

  /** The `relative_date` of the entry: the review's `relative_date`, else
      its `relative_time_description`, else empty. */
  function RelativeDateOf(r: Record): Value {
    Or(Get(r, RELATIVE_DATE), Or(Get(r, "relative_time_description"), Str("")))
  }

  /** The `review_date` of the entry: the review's `review_date`, else its
      `time`, else empty; a number is turned into a date text by
      `utcDate` (which gives the empty text when the conversion fails). */
  function ReviewDateOf(r: Record, utcDate: Value -> string): Value {
    var d := Or(Get(r, REVIEW_DATE), Or(Get(r, "time"), Str("")));
    if d.Int? || d.Num? then Str(utcDate(d)) else d
  }

  /** The entry appended for the row with id `id` whose review `r` was
      found, at clock text `now`. */
  function Entry(id: Value, r: Record, utcDate: Value -> string, now: string): (e: Record)
    ensures e.Keys == {ID_REVIEW, REVIEW_DATE, RELATIVE_DATE, RETRIEVAL_DATE}
    ensures e[ID_REVIEW] == id && e[RETRIEVAL_DATE] == Str(now)
  {
    map[ID_REVIEW := id, REVIEW_DATE := ReviewDateOf(r, utcDate),
        RELATIVE_DATE := RelativeDateOf(r), RETRIEVAL_DATE := Str(now)]
  }

  /** Each date field of an entry is the first truthy one of the review's
      fields, in order, or the empty text when none is. */
  lemma EntryCoalesces(id: Value, r: Record, utcDate: Value -> string, now: string)
    ensures var e := Entry(id, r, utcDate, now);
      && (Truthy(Get(r, RELATIVE_DATE)) ==> e[RELATIVE_DATE] == Get(r, RELATIVE_DATE))
      && (!Truthy(Get(r, RELATIVE_DATE)) && Truthy(Get(r, "relative_time_description")) ==>
            e[RELATIVE_DATE] == Get(r, "relative_time_description"))
      && (!Truthy(Get(r, RELATIVE_DATE)) && !Truthy(Get(r, "relative_time_description")) ==>
            e[RELATIVE_DATE] == Str(""))
      && (Truthy(Get(r, REVIEW_DATE)) && !Get(r, REVIEW_DATE).Int? && !Get(r, REVIEW_DATE).Num? ==>
            e[REVIEW_DATE] == Get(r, REVIEW_DATE))
      && (!Truthy(Get(r, REVIEW_DATE)) && Truthy(Get(r, "time")) && !Get(r, "time").Int? && !Get(r, "time").Num? ==>
            e[REVIEW_DATE] == Get(r, "time"))
      && (!Truthy(Get(r, REVIEW_DATE)) && !Truthy(Get(r, "time")) ==> e[REVIEW_DATE] == Str(""))
      && (e[REVIEW_DATE].Str? || e[REVIEW_DATE] == Get(r, REVIEW_DATE) || e[REVIEW_DATE] == Get(r, "time"))
  {
  }

  // ---------------------------------------------------------------------
  // Step 3: the loop over the rows

  /** The text Python's f-string gives for a cell read back by pandas. */
  function Text(v: Value): string {
    match v
    case Null => "nan"
    case Str(s) => s
    case Int(n) => Decimal(n)
    case Num(t) => t
    case Instant(_) => ""
  }

  /** The place page of a row, from its `place_id` cell. */
  function RowUrl(row: Record): string
    requires PLACE_ID in row
  {
    PlaceIdUrl(Text(row[PLACE_ID]))
  }

  /** Row `i` ends the script with an exception: it lacks an `id_review`
      or a `place_id` cell (a KeyError), or its sort menu opens without a
      second item (an IndexError). */
  predicate RowRaises(row: Record, i: nat, opens: (nat, nat) -> bool, items: nat -> nat) {
    ID_REVIEW !in row || PLACE_ID !in row || (MenuOpens(opens, i) && PyIndex(NEWEST, items(i)).None?)
  }

  /** What the search for missing row `i` finds. */
  ghost function Found(missing: seq<Record>, batch: (nat, int) -> seq<Record>, size: nat -> nat, i: nat): Option<Record>
    requires i < |missing| && Bounded(batch, i, size(i))
  {
    Search(batch, i, Get(missing[i], ID_REVIEW), 0, size(i))
  }

  /** The entries `entries`, each made for row `rows[k]` of the first
      `reached` missing rows: exactly the rows whose menu opened and whose
      search found the id, in order, each with that row's id and the dates
      of the review found. */
  ghost predicate Recovered(entries: seq<Record>, rows: seq<nat>, missing: seq<Record>, reached: nat,
                            opens: (nat, nat) -> bool, batch: (nat, int) -> seq<Record>, size: nat -> nat,
                            utcDate: Value -> string, now: nat -> string)
    requires reached <= |missing| && forall i: nat :: Bounded(batch, i, size(i))
  {
    && |rows| == |entries|
    && (forall k :: 0 <= k < |rows| ==> rows[k] < reached)
    && (forall k, l :: 0 <= k < l < |rows| ==> rows[k] < rows[l])
    && (forall i: nat :: i < reached ==> (i in rows <==> MenuOpens(opens, i) && Found(missing, batch, size, i).Some?))
    && forall k :: 0 <= k < |entries| ==>
         && Found(missing, batch, size, rows[k]).Some?
         && entries[k] == Entry(Get(missing[rows[k]], ID_REVIEW), Found(missing, batch, size, rows[k]).value,
                                utcDate, now(rows[k]))
  }

  /** One more row done, without an entry. */
  lemma RecoveredNext(entries: seq<Record>, rows: seq<nat>, missing: seq<Record>, reached: nat,
                      opens: (nat, nat) -> bool, batch: (nat, int) -> seq<Record>, size: nat -> nat,
                      utcDate: Value -> string, now: nat -> string)
    requires reached < |missing| && forall i: nat :: Bounded(batch, i, size(i))
    requires Recovered(entries, rows, missing, reached, opens, batch, size, utcDate, now)
    requires !MenuOpens(opens, reached) || Found(missing, batch, size, reached).None?
    ensures Recovered(entries, rows, missing, reached + 1, opens, batch, size, utcDate, now)
  {
  }

  /** One more row done, with its entry. */
  lemma RecoveredSnoc(entries: seq<Record>, rows: seq<nat>, missing: seq<Record>, reached: nat,
                      opens: (nat, nat) -> bool, batch: (nat, int) -> seq<Record>, size: nat -> nat,
                      utcDate: Value -> string, now: nat -> string, entry: Record)
    requires reached < |missing| && forall i: nat :: Bounded(batch, i, size(i))
    requires Recovered(entries, rows, missing, reached, opens, batch, size, utcDate, now)
    requires MenuOpens(opens, reached) && Found(missing, batch, size, reached).Some?
    requires entry == Entry(Get(missing[reached], ID_REVIEW), Found(missing, batch, size, reached).value,
                            utcDate, now(reached))
    ensures Recovered(entries + [entry], rows + [reached], missing, reached + 1, opens, batch, size, utcDate, now)
  {
    var entries' := entries + [entry];
    var rows' := rows + [reached];
    forall k | 0 <= k < |entries'|
      ensures && Found(missing, batch, size, rows'[k]).Some?
              && entries'[k] == Entry(Get(missing[rows'[k]], ID_REVIEW), Found(missing, batch, size, rows'[k]).value,
                                      utcDate, now(rows'[k]))
    {
      if k < |entries| {
        assert entries'[k] == entries[k] && rows'[k] == rows[k];
      }
    }
    forall i: nat | i < reached + 1
      ensures i in rows' <==> MenuOpens(opens, i) && Found(missing, batch, size, i).Some?
    {
      if i < reached {
        assert i in rows' <==> i in rows;
      }
    }
    assert forall k, l :: 0 <= k < l < |rows'| ==> rows'[k] < rows'[l];
  }

  /** The loop over the missing rows, until an exception. For row `i`:
      attempt `k` to open its sort menu works when `opens(i, k)`, the menu
      has `items(i)` entries, its page gives `batch(i, offset)` and holds
      no review from `size(i)` on, and `now(i)` is the clock text of its
      entry. `reached` is the number of rows done before an exception
      (all of them when none was raised); `entries` are the entries
      appended, each made for row `rows[k]`. */
  method RecoverRows(missing: seq<Record>, opens: (nat, nat) -> bool, items: nat -> nat,
                     batch: (nat, int) -> seq<Record>, ghost size: nat -> nat,
                     utcDate: Value -> string, now: nat -> string)
    returns (reached: nat, entries: seq<Record>, rows: seq<nat>)
    requires forall i: nat :: Bounded(batch, i, size(i))
    ensures reached <= |missing| && |entries| <= reached
    ensures forall i: nat :: i < reached ==> !RowRaises(missing[i], i, opens, items)
    ensures reached < |missing| ==> RowRaises(missing[reached], reached, opens, items)
    ensures Recovered(entries, rows, missing, reached, opens, batch, size, utcDate, now)
  {
    reached, entries, rows := 0, [], [];
    while reached < |missing|
      invariant reached <= |missing| && |entries| <= reached
      invariant forall i: nat :: i < reached ==> !RowRaises(missing[i], i, opens, items)
      invariant Recovered(entries, rows, missing, reached, opens, batch, size, utcDate, now)
      decreases |missing| - reached
    {
      var i := reached;
      var row := missing[i];
      if ID_REVIEW !in row || PLACE_ID !in row {
        return;
      }
      var reviewId := row[ID_REVIEW];
      // The oracles indexed by `i` stand for the page at `RowUrl(row)`.
      var sorted := SortPage(opens, i, items(i), NEWEST);
      if sorted == NoSuchItem {
        return;
      }
      if sorted == Sorted {
        var hit, _ := SearchRow(batch, i, reviewId, size(i));
        if hit.Some? {
          var entry := Entry(reviewId, hit.value, utcDate, now(i));
          RecoveredSnoc(entries, rows, missing, i, opens, batch, size, utcDate, now, entry);
          entries, rows := entries + [entry], rows + [i];
        } else {
          RecoveredNext(entries, rows, missing, i, opens, batch, size, utcDate, now);
        }
      } else {
        RecoveredNext(entries, rows, missing, i, opens, batch, size, utcDate, now);
      }
      reached := reached + 1;
    }
  }

  // ---------------------------------------------------------------------
  // Step 4 and the whole script

  /** The columns of the recovered table, in the order of the entry keys. */
  const RECOVERED_HEADER: seq<string> := [ID_REVIEW, REVIEW_DATE, RELATIVE_DATE, RETRIEVAL_DATE]

  /** `pd.DataFrame(recovered_reviews)`: no columns at all when nothing
      was recovered. */
  function RecoveredTable(entries: seq<Record>): (t: Table)
    ensures |t.rows| == |entries|
  {
    if entries == [] then Table([], []) else ToTable(entries, RECOVERED_HEADER)
  }

  /** The script: the list of rows without a date (None when the script
      stops before saving it) and the recovered table (None when it stops
      before step 4). An exception in step 3 ends the loop over the rows,
      but the scraper's `__exit__` swallows it, so step 4 still saves the
      entries made before it: `reached` rows were done, `entries` made for
      rows `rows`. */
  method RecoverDates(stored: Option<Table>, opens: (nat, nat) -> bool, items: nat -> nat,
                      batch: (nat, int) -> seq<Record>, ghost size: nat -> nat,
                      utcDate: Value -> string, now: nat -> string)
    returns (missing: Option<seq<Record>>, recovered: Option<Table>,
             reached: nat, entries: seq<Record>, ghost rows: seq<nat>)
    requires forall i: nat :: Bounded(batch, i, size(i))
    ensures missing == MissingList(stored)
    ensures recovered.Some? <==> missing.Some?
    ensures missing.None? ==> reached == 0 && entries == []
    ensures missing.Some? ==>
      && reached <= |missing.value|
      && (forall i: nat :: i < reached ==> !RowRaises(missing.value[i], i, opens, items))
      && (reached < |missing.value| ==> RowRaises(missing.value[reached], reached, opens, items))
      && Recovered(entries, rows, missing.value, reached, opens, batch, size, utcDate, now)
      && recovered == Some(RecoveredTable(entries))
      && |recovered.value.rows| <= reached
  {
    missing := MissingList(stored);
    if missing.None? {
      return missing, None, 0, [], [];
    }
    reached, entries, rows := RecoverRows(missing.value, opens, items, batch, size, utcDate, now);
    recovered := Some(RecoveredTable(entries));
  }
}
