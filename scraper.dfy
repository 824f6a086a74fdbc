/** The command-line scraper: for every line of the URL file, either print
    the place's account, or sort its reviews, collect up to `N` of them and
    upload them as a table under `<slug>/<output name>`. The browser, the
    clock and the page are replaced by per-line oracles; the uploads are
    returned in order. Unlike the monitor, nothing is caught: the first
    exception ends the run. */
module Scraper {
  import opened Wrappers
  import opened Strings
  import opened Records
  import opened Urls
  import opened Reviews
  import opened Places
  import opened Browser
  import opened Pagination

  // ---------------------------------------------------------------------
  // Sort names

  /** The `ind` table: the menu position of each sort name, None (a
      KeyError) for any other name. */
  function SortIndex(name: string): (ind: Option<int>)
    ensures ind.Some? ==> 0 <= ind.value < 4
  {
    if name == "most_relevant" then Some(0)
    else if name == "newest" then Some(1)
    else if name == "highest_rating" then Some(2)
    else if name == "lowest_rating" then Some(3)
    else None
  }

  /** The four names, and no two names for one position. */
  lemma SortIndexTable()
    ensures SortIndex("most_relevant") == Some(0) && SortIndex("newest") == Some(1)
    ensures SortIndex("highest_rating") == Some(2) && SortIndex("lowest_rating") == Some(3)
    ensures forall a, b :: SortIndex(a).Some? && SortIndex(a) == SortIndex(b) ==> a == b
  {
  }

  // ---------------------------------------------------------------------
  // Rewriting a line that names a place id

  /** What marks a place id in a line of the URL file. */
  const ID_MARKER: string := "place_id:"

  lemma MarkerPieces()
    ensures MARKER == "q=" + ID_MARKER
    ensures NoSelfOverlap(ID_MARKER)
  {
  }

  /** A line holding `place_id:` becomes the place page URL of what follows
      its last occurrence; any other line is kept. */
  function RewriteUrl(url: string): string {
    if Contains(url, ID_MARKER) then PlaceIdUrl(LastPiece(url, ID_MARKER)) else url
  }

  /** Whatever precedes the marker, the id after it gives the place page
      URL of that id. */
  lemma RewriteOf(prefix: string, id: string)
    requires !Contains(id, ID_MARKER)
    ensures RewriteUrl(prefix + ID_MARKER + id) == PlaceIdUrl(id)
  {
    var url := prefix + ID_MARKER + id;
    MarkerPieces();
    assert OccursAt(url, ID_MARKER, |prefix|) by {
      assert url[|prefix|..|prefix| + |ID_MARKER|] == ID_MARKER;
    }
    ContainsAt(url, ID_MARKER, |prefix|);
    LastPieceAfter(prefix, ID_MARKER, id);
  }

  /** A rewritten URL is rewritten to itself. */
  lemma RewriteIdempotent(url: string)
    ensures RewriteUrl(RewriteUrl(url)) == RewriteUrl(url)
  {
    if Contains(url, ID_MARKER) {
      var id := LastPiece(url, ID_MARKER);
      MarkerPieces();
      assert PlaceIdUrl(id) == (PLACE_PAGE + "q=") + ID_MARKER + id;
      RewriteOf(PLACE_PAGE + "q=", id);
    }
  }

  /** The id in a line of the `place_id:` form is the id the reviews are
      then tagged with, for a non-empty id without `&`. */
  lemma RewriteKeepsId(prefix: string, id: string)
    requires !Contains(id, ID_MARKER) && id != [] && '&' !in id
    ensures ExtractPlaceId(RewriteUrl(prefix + ID_MARKER + id)) == Some(id)
  {
    RewriteOf(prefix, id);
    PlaceIdRoundTrip(id);
  }

  // ---------------------------------------------------------------------
  // The table uploaded with `--source`

  /** Tagging with a source and writing under `HEADER_W_SOURCE` loses the
      source: the tag's key `source_url` is not a column, and the column
      `url_source` is never set, so its cell is empty on every line. */
  lemma SourceColumnEmpty(rv: Review, stamp: string, source: string)
    ensures HEADER_W_SOURCE[9] == "url_source"
    ensures Row(Tag(AsRecord(rv), stamp, Some(source)), HEADER_W_SOURCE)[9] == Str("")
  {
  }

  /** The column `HEADER_W_SOURCE` names for the source. */
  const SOURCE_COLUMN: string := "url_source"

  /** The columns written: `HEADER_W_SOURCE` with `--source`, the review
      header otherwise. */
  function Headers(source: bool): seq<string> {
    if source then HEADER_W_SOURCE else HEADER
  }

  /** The number of columns written. */
  function Width(source: bool): nat {
    if source then 10 else 9
  }

  /** The column holding the retrieval date. */
  function RetrievalColumn(source: bool): nat {
    if source then 3 else 4
  }

  /** Where the retrieval date is written, and that the last column of
      the source header is not the key the source is tagged under. */
  lemma HeaderColumns(source: bool)
    ensures |Headers(source)| == Width(source) && RetrievalColumn(source) < Width(source)
    ensures Headers(source)[RetrievalColumn(source)] == RETRIEVAL_DATE
    ensures source ==> Headers(source)[9] == SOURCE_COLUMN && SOURCE_COLUMN != SOURCE_URL
    ensures SOURCE_URL !in Headers(source)
  {
  }

  /** The source header with its last column named as the tag's key, as
      evidently intended. */
  const SOURCE_HEADER: seq<string> := HEADER_W_SOURCE[..9] + [SOURCE_URL]

  /** Under the intended source header every line carries its source. */
  lemma SourceColumnFilled(r: Record, stamp: string, source: string)
    ensures |SOURCE_HEADER| == 10 && SOURCE_HEADER[..9] == HEADER_W_SOURCE[..9]
    ensures Row(Tag(r, stamp, Some(source)), SOURCE_HEADER)[9] == Str(source)
  {
  }

  /** A table of tagged reviews for line `i`: written under the header
      chosen, every line one cell per column, with the `j`-th clock reading
      for the line in the retrieval column. */
  predicate Stamped(t: Table, source: bool, stamp: (nat, nat) -> string, i: nat) {
    && t.header == Headers(source)
    && forall j :: 0 <= j < |t.rows| ==>
         && |t.rows[j]| == Width(source)
         && t.rows[j][RetrievalColumn(source)] == Str(stamp(i, j))
  }

  /** The table of the reviews kept for line `i` is stamped; with
      `--source`, the source column is empty on every line whose review
      has no `url_source` key of its own, whatever URL it was tagged
      with. */
  lemma TaggedTable(raw: seq<Record>, st: nat -> string, stamp: (nat, nat) -> string, i: nat,
                    source: bool, url: string)
    requires forall k: nat :: st(k) == stamp(i, k)
    ensures var t := ToTable(TagAll(raw, st, if source then Some(url) else None), Headers(source));
      && Stamped(t, source, stamp, i)
      && (source ==> forall j :: 0 <= j < |raw| && SOURCE_COLUMN !in raw[j] ==> t.rows[j][9] == Str(""))
  {
    HeaderColumns(source);
  }

  /** The table uploaded for line `i` opened at `url`: the reviews the
      pagination loop gathers from the line's page, tagged with the line's
      clock readings (and the URL with `--source`), written under the
      header chosen. */
  function LineTable(url: string, n: int, source: bool, i: nat,
                     batch: (nat, int) -> seq<Record>, stamp: (nat, nat) -> string): Table
  {
    ToTable(TagAll(Gathered((o: int) => batch(i, o), n), (k: nat) => stamp(i, k), if source then Some(url) else None),
            Headers(source))
  }

  /** A line's table is stamped, holds at most `N` lines, and leaves the
      source column empty for reviews shaped as `get_reviews` gives them. */
  lemma LineTableStamped(url: string, n: int, source: bool, i: nat,
                         batch: (nat, int) -> seq<Record>, stamp: (nat, nat) -> string)
    ensures var t := LineTable(url, n, source, i, batch, stamp);
      && Stamped(t, source, stamp, i)
      && |t.rows| <= (if n > 0 then n else 0)
      && (source && (forall o: int, r: Record :: r in batch(i, o) ==> SOURCE_COLUMN !in r) ==>
            forall j :: 0 <= j < |t.rows| ==> t.rows[j][9] == Str(""))
  {
    var raw := Gathered((o: int) => batch(i, o), n);
    var st := (k: nat) => stamp(i, k);
    TaggedTable(raw, st, stamp, i, source, url);
    if source && (forall o: int, r: Record :: r in batch(i, o) ==> SOURCE_COLUMN !in r) {
      forall j | 0 <= j < |raw|
        ensures SOURCE_COLUMN !in raw[j]
      {
        GatheredFrom((o: int) => batch(i, o), n, j);
      }
    }
  }

  // ---------------------------------------------------------------------
  // The run

  /** The URL a line is opened at. */
  function LineUrl(line: string): string {
    Strip(line)
  }

  /** Line `i` ends the run with an exception: a place without readable
      coordinates; an unknown sort name; or a menu without the item. */
  predicate LineRaises(lines: seq<string>, i: nat, place: bool, sortName: string,
                       docs: nat -> PlaceDoc, opens: (nat, nat) -> bool, items: nat -> nat)
    requires i < |lines|
  {
    if place then GetAccount(docs(i), LineUrl(lines[i])).Err?
    else (SortIndex(sortName).None?
          || (MenuOpens(opens, i) && PyIndex(SortIndex(sortName).value, items(i)).None?))
  }

  /** The object key of a line's table. */
  function UploadKey(line: string, now: string, outName: string): string {
    Slug(LineUrl(line), now) + "/" + outName
  }

  /** The reviews of one line, sorted by menu item `ind`: an exception
      when the menu opens without that item, no table when it never opens,
      otherwise the table of the reviews collected. */
  method ScrapeLine(url: string, n: int, ind: int, source: bool, i: nat,
                    opens: (nat, nat) -> bool, items: nat -> nat,
                    batch: (nat, int) -> seq<Record>, stamp: (nat, nat) -> string)
    returns (raised: bool, table: Option<Table>)
    ensures raised <==> MenuOpens(opens, i) && PyIndex(ind, items(i)).None?
    ensures table.Some? <==> !raised && MenuOpens(opens, i)
    ensures table.Some? ==> table.value == LineTable(url, n, source, i, batch, stamp)
  {
    var sorted := SortPage(opens, i, items(i), ind);
    raised := sorted == NoSuchItem;
    if sorted != Sorted {
      return raised, None;
    }
    var page := (o: int) => batch(i, o);
    var st := (k: nat) => stamp(i, k);
    var src := if source then Some(url) else None;
    var kept, _, _ := Collect(page, n, st, src);
    GatheredSame(page, (o: int) => batch(i, o), n);
    TagAllSame(Gathered(page, n), st, (k: nat) => stamp(i, k), src);
    table := Some(ToTable(kept, Headers(source)));
  }

  /** The URLs the lines are opened at. */
  function LineUrls(lines: seq<string>): (urls: seq<string>)
    ensures |urls| == |lines| && forall i :: 0 <= i < |lines| ==> urls[i] == LineUrl(lines[i])
  {
    seq(|lines|, i requires 0 <= i < |lines| => LineUrl(lines[i]))
  }

  /** The scraper's loop with `--place`: the account of every URL, until
      one cannot be parsed. */
  method PrintAccounts(urls: seq<string>, docs: nat -> PlaceDoc) returns (reached: nat, accounts: seq<Account>)
    ensures reached <= |urls| && |accounts| == reached
    ensures forall i :: 0 <= i < reached ==> GetAccount(docs(i), urls[i]) == Ok(accounts[i])
    ensures reached < |urls| ==> GetAccount(docs(reached), urls[reached]).Err?
  {
    reached, accounts := 0, [];
    while reached < |urls|
      invariant reached <= |urls| && |accounts| == reached
      invariant forall i :: 0 <= i < reached ==> GetAccount(docs(i), urls[i]) == Ok(accounts[i])
      decreases |urls| - reached
    {
      var account := GetAccount(docs(reached), urls[reached]);
      if account.Err? {
        return;
      }
      ghost var before := accounts;
      accounts := accounts + [account.value];
      forall i | 0 <= i <= reached
        ensures GetAccount(docs(i), urls[i]) == Ok(accounts[i])
      {
        if i < reached {
          assert accounts[i] == before[i];
        }
      }
      reached := reached + 1;
    }
  }

  /** The object key of each line's table. */
  function UploadKeys(lines: seq<string>, now: nat -> string, outName: string): (keys: seq<string>)
    ensures |keys| == |lines| && forall i :: 0 <= i < |lines| ==> keys[i] == UploadKey(lines[i], now(i), outName)
  {
    seq(|lines|, i requires 0 <= i < |lines| => UploadKey(lines[i], now(i), outName))
  }

  /** The URL each line's reviews are tagged with: the line, rewritten
      when it names a place id. */
  function SourceUrls(lines: seq<string>): (urls: seq<string>)
    ensures |urls| == |lines| && forall i :: 0 <= i < |lines| ==> urls[i] == RewriteUrl(LineUrl(lines[i]))
  {
    seq(|lines|, i requires 0 <= i < |lines| => RewriteUrl(LineUrl(lines[i])))
  }

  /** The uploads `puts`, each made for line `sources[k]` of the first
      `reached` lines, under that line's key and holding that line's
      table. */
  predicate Uploads(puts: seq<(string, Table)>, sources: seq<nat>, keys: seq<string>, urls: seq<string>,
                    reached: nat, n: int, source: bool, batch: (nat, int) -> seq<Record>, stamp: (nat, nat) -> string)
    requires reached <= |keys| && reached <= |urls|
  {
    && |sources| == |puts|
    && (forall k :: 0 <= k < |sources| ==> sources[k] < reached)
    && (forall k, l :: 0 <= k < l < |sources| ==> sources[k] < sources[l])
    && forall k :: 0 <= k < |puts| ==>
         puts[k] == (keys[sources[k]], LineTable(urls[sources[k]], n, source, sources[k], batch, stamp))
  }

  /** One more line done, without an upload. */
  lemma UploadsNext(puts: seq<(string, Table)>, sources: seq<nat>, keys: seq<string>, urls: seq<string>,
                    reached: nat, n: int, source: bool, batch: (nat, int) -> seq<Record>, stamp: (nat, nat) -> string)
    requires reached < |keys| && reached < |urls| && Uploads(puts, sources, keys, urls, reached, n, source, batch, stamp)
    ensures Uploads(puts, sources, keys, urls, reached + 1, n, source, batch, stamp)
  {
  }

  /** One more line done, with the upload of its table. */
  lemma UploadsSnoc(puts: seq<(string, Table)>, sources: seq<nat>, keys: seq<string>, urls: seq<string>,
                    reached: nat, n: int, source: bool, batch: (nat, int) -> seq<Record>, stamp: (nat, nat) -> string)
    requires reached < |keys| && reached < |urls| && Uploads(puts, sources, keys, urls, reached, n, source, batch, stamp)
    ensures Uploads(puts + [(keys[reached], LineTable(urls[reached], n, source, reached, batch, stamp))],
                    sources + [reached], keys, urls, reached + 1, n, source, batch, stamp)
  {
    var puts' := puts + [(keys[reached], LineTable(urls[reached], n, source, reached, batch, stamp))];
    var sources' := sources + [reached];
    forall k | 0 <= k < |puts'|
      ensures puts'[k] == (keys[sources'[k]], LineTable(urls[sources'[k]], n, source, sources'[k], batch, stamp))
    {
      if k < |puts| {
        assert puts'[k] == puts[k] && sources'[k] == sources[k];
      }
    }
    assert forall k, l :: 0 <= k < l < |sources'| ==> sources'[k] < sources'[l];
  }

  /** The scraper's loop without `--place`: for every line, rewrite a
      place id line, sort, collect and upload, until an exception. An
      unknown sort name raises at the first line. Line `i` is uploaded
      under `keys[i]` and tagged with `urls[i]`. */
  method UploadReviews(lines: seq<string>, keys: seq<string>, urls: seq<string>, n: int, sortName: string,
                       source: bool, opens: (nat, nat) -> bool, items: nat -> nat,
                       batch: (nat, int) -> seq<Record>, stamp: (nat, nat) -> string)
    returns (reached: nat, puts: seq<(string, Table)>, sources: seq<nat>)
    requires |keys| == |lines| && |urls| == |lines|
    ensures reached <= |lines|
    ensures SortIndex(sortName).None? ==> reached == 0
    ensures SortIndex(sortName).Some? ==>
      && (forall i: nat :: i < reached ==> !(MenuOpens(opens, i) && PyIndex(SortIndex(sortName).value, items(i)).None?))
      && (reached < |lines| ==> MenuOpens(opens, reached) && PyIndex(SortIndex(sortName).value, items(reached)).None?)
    ensures forall i: nat :: i < reached ==> (i in sources <==> MenuOpens(opens, i))
    ensures Uploads(puts, sources, keys, urls, reached, n, source, batch, stamp)
  {
    reached, puts, sources := 0, [], [];
    var ind := SortIndex(sortName);
    if ind.None? || lines == [] {
      return;
    }
    while reached < |lines|
      invariant reached <= |lines|
      invariant forall i: nat :: i < reached ==> !(MenuOpens(opens, i) && PyIndex(ind.value, items(i)).None?)
      invariant forall i: nat :: i < reached ==> (i in sources <==> MenuOpens(opens, i))
      invariant Uploads(puts, sources, keys, urls, reached, n, source, batch, stamp)
      decreases |lines| - reached
    {
      var i := reached;
      var raised, table := ScrapeLine(urls[i], n, ind.value, source, i, opens, items, batch, stamp);
      if raised {
        return;
      }
      ghost var before := sources;
      if table.Some? {
        UploadsSnoc(puts, sources, keys, urls, i, n, source, batch, stamp);
        puts := puts + [(keys[i], table.value)];
        sources := sources + [i];
      } else {
        UploadsNext(puts, sources, keys, urls, i, n, source, batch, stamp);
      }
      forall j: nat | j <= i
        ensures j in sources <==> MenuOpens(opens, j)
      {
        if j < i {
          assert j in sources <==> j in before;
        }
      }
      reached := reached + 1;
    }
  }

  /** The scraper's main loop over `lines`. For line `i`: `now(i)` is the
      clock text for a missing slug, `docs(i)` the place page, attempt `k`
      to open its menu works when `opens(i, k)`, the menu has `items(i)`
      entries, the page gives `batch(i, offset)`, and the `k`-th review kept
      is stamped `stamp(i, k)`. `reached` is the number of lines done
      before an exception ended the run (all of them when none did);
      `accounts` are the accounts printed; `puts` the uploads, in order,
      each made for line `sources[k]`. */
  method Run(lines: seq<string>, n: int, outName: string, sortName: string, place: bool, source: bool,
             now: nat -> string, docs: nat -> PlaceDoc,
             opens: (nat, nat) -> bool, items: nat -> nat,
             batch: (nat, int) -> seq<Record>, stamp: (nat, nat) -> string)
    returns (reached: nat, accounts: seq<Account>, puts: seq<(string, Table)>, sources: seq<nat>)
    ensures reached <= |lines|
    ensures forall i: nat :: i < reached ==> !LineRaises(lines, i, place, sortName, docs, opens, items)
    ensures reached < |lines| ==> LineRaises(lines, reached, place, sortName, docs, opens, items)
    ensures place ==> puts == [] && |accounts| == reached
    ensures place ==> forall i :: 0 <= i < reached ==> GetAccount(docs(i), LineUrl(lines[i])) == Ok(accounts[i])
    ensures !place ==> accounts == []
    ensures !place ==> forall i: nat :: i < reached ==> (i in sources <==> MenuOpens(opens, i))
    ensures Uploads(puts, sources, UploadKeys(lines, now, outName), SourceUrls(lines), reached, n, source, batch, stamp)
  {
    if place {
      reached, accounts := PrintAccounts(LineUrls(lines), docs);
      puts, sources := [], [];
    } else {
      accounts := [];
      reached, puts, sources := UploadReviews(lines, UploadKeys(lines, now, outName), SourceUrls(lines), n, sortName,
                                              source, opens, items, batch, stamp);
    }
  }
}
