/** The monitor: for every URL, sort the reviews by newest, collect up to
    `max_reviews` of them, and merge the ones whose id is new into one
    combined table in the store. The store's object under the combined key
    is a parameter and a result; the store is read again for every URL,
    and whether that read works is an oracle. The browser is replaced by
    per-URL oracles too. */
module Monitor {
  import opened Wrappers
  import opened Records
  import opened Browser
  import opened Pagination

  /** All URLs merge into this one object of the store. */
  const COMBINED_KEY: string := "combined/all_4_naturals_reviews.csv"

  /** The column that identifies a review. */
  const ID_REVIEW: string := "id_review"

  /** The sort menu item for "newest". */
  const NEWEST: int := 1

  /** `load_s3_reviews`: the stored table, or, when it cannot be read for
      any reason, an empty table whose only column is `id_review`. */
  function LoadPrevious(stored: Option<Table>): Table {
    if stored.Some? then stored.value else Table([ID_REVIEW], [])
  }

  /** pandas' `DataFrame.empty`: no rows or no columns. */
  predicate EmptyFrame(t: Table) {
    t.rows == [] || t.header == []
  }

  function Id(r: Record): Value {
    Get(r, ID_REVIEW)
  }

  /** The ids a table already holds. A missing id (NaN) equals nothing,
      so it is never among them. */
  function KnownIds(previous: seq<Record>): set<Value> {
    set r | r in previous && Id(r) != Null :: Id(r)
  }

  /** The scraped records whose id is not known, in scrape order. */
  function NewRows(local: seq<Record>, known: set<Value>): (added: seq<Record>)
    ensures forall r :: r in added <==> r in local && Id(r) !in known
    ensures |added| <= |local|
  {
    if local == [] then []
    else if Id(local[0]) in known then NewRows(local[1..], known)
    else [local[0]] + NewRows(local[1..], known)
  }

  /** Filtering a scrape part by part is filtering it whole: the new rows
      keep scrape order, and a record repeated in the scrape is repeated
      among them. */
  lemma {:induction false} NewRowsAppend(a: seq<Record>, b: seq<Record>, known: set<Value>)
    ensures NewRows(a + b, known) == NewRows(a, known) + NewRows(b, known)
    decreases |a|
  {
    if a != [] {
      assert (a + b)[0] == a[0] && (a + b)[1..] == a[1..] + b;
      NewRowsAppend(a[1..], b, known);
    } else {
      assert a + b == b;
    }
  }

  /** A single record is kept exactly when its id is not known. */
  lemma NewRowsOne(r: Record, known: set<Value>)
    ensures NewRows([r], known) == if Id(r) in known then [] else [r]
  {
    assert [r][1..] == [];
  }

  /** What one comparison with the store ends in: an exception (logged),
      no new ids, or the content to upload. */
  datatype SyncOutcome = Raised | NoNewIds | Upload(content: seq<Record>)

  /** Reading the previous ids fails on a non-empty table without an
      `id_review` column; reading the new ids fails when no scraped record
      has that key, which includes an empty scrape. */
  predicate SyncFails(previous: Table, local: seq<Record>) {
    (!EmptyFrame(previous) && ID_REVIEW !in previous.header)
    || forall r | r in local :: ID_REVIEW !in r
  }

  /** The comparison of `scrape_and_monitor_reviews`: the ids scraped minus
      the ids stored; when some are new, the previous rows in their order
      followed by the scraped records with a new id. */
  function Sync(stored: Option<Table>, local: seq<Record>): (o: SyncOutcome)
    ensures o.Raised? <==> SyncFails(LoadPrevious(stored), local)
    ensures o.Upload? <==>
      !SyncFails(LoadPrevious(stored), local)
      && exists r :: r in local && Id(r) !in KnownIds(FromTable(LoadPrevious(stored)))
    ensures o.Upload? ==>
      var previous := FromTable(LoadPrevious(stored));
      && |o.content| > |previous|
      && o.content[..|previous|] == previous
      && (forall r :: r in o.content[|previous|..] <==> r in local && Id(r) !in KnownIds(previous))
      && o.content[|previous|..] == NewRows(local, KnownIds(previous))
  {
    var previous := LoadPrevious(stored);
    if SyncFails(previous, local) then Raised
    else
      var prev := FromTable(previous);
      var added := NewRows(local, KnownIds(prev));
      if added == [] then NoNewIds
      else
        assert added[0] in added;
        assert (prev + added)[|prev|..] == added;
        Upload(prev + added)
  }

  /** An empty scrape always fails, whatever is stored. */
  lemma EmptyScrapeFails(stored: Option<Table>)
    ensures Sync(stored, []) == Raised
  {
  }

  /** With nothing readable in the store, every scraped record is new and
      the whole scrape is uploaded, provided one record has an id key. */
  lemma NothingStoredUploadsAll(local: seq<Record>)
    requires exists r :: r in local && ID_REVIEW in r
    ensures Sync(None, local) == Upload(local)
  {
    var previous := LoadPrevious(None);
    assert FromTable(previous) == [];
    assert KnownIds([]) == {};
    assert !SyncFails(previous, local);
    NewRowsNoneKnown(local);
    assert local != [];
  }

  lemma {:induction false} NewRowsNoneKnown(local: seq<Record>)
    ensures NewRows(local, {}) == local
  {
    if local != [] {
      NewRowsNoneKnown(local[1..]);
      assert [local[0]] + local[1..] == local;
    }
  }

  /** A scraped record without an id is uploaded again on every run that
      does not fail: its id is never known. */
  lemma MissingIdAlwaysUploaded(stored: Option<Table>, local: seq<Record>, r: Record)
    requires r in local && Id(r) == Null
    requires !SyncFails(LoadPrevious(stored), local)
    ensures Sync(stored, local).Upload?
    ensures r in Sync(stored, local).content[|FromTable(LoadPrevious(stored))|..]
  {
  }

  /** A non-empty text id written under the review header reads back as
      itself. */
  lemma IdReadsBack(content: seq<Record>, i: int)
    requires 0 <= i < |content| && Id(content[i]).Str? && Id(content[i]).s != ""
    ensures Id(FromTable(ToTable(content, HEADER))[i]) == Id(content[i])
  {
    HeadersDistinct();
    assert HEADER[0] == ID_REVIEW;
    ReadBack(content, HEADER, i, 0);
  }

  /** Every id a content line carries is known once the content is
      written. */
  lemma WrittenIdsKnown(content: seq<Record>, i: int)
    requires 0 <= i < |content| && Id(content[i]).Str? && Id(content[i]).s != ""
    ensures Id(content[i]) in KnownIds(FromTable(ToTable(content, HEADER)))
  {
    var again := FromTable(ToTable(content, HEADER));
    IdReadsBack(content, i);
    assert again[i] in again;
  }

  /** When every scraped id is already known, nothing is uploaded. */
  lemma AllKnownNoUpload(stored: Option<Table>, local: seq<Record>)
    requires !SyncFails(LoadPrevious(stored), local)
    requires forall r :: r in local ==> Id(r) in KnownIds(FromTable(LoadPrevious(stored)))
    ensures Sync(stored, local) == NoNewIds
  {
  }

  /** An id written on one of the lines of the content is known once the
      content is written. */
  lemma LineIdKnown(content: seq<Record>, part: seq<Record>, from: int, r: Record)
    requires 0 <= from <= from + |part| <= |content| && content[from..from + |part|] == part
    requires r in part && Id(r).Str? && Id(r).s != ""
    ensures Id(r) in KnownIds(FromTable(ToTable(content, HEADER)))
  {
    var k :| 0 <= k < |part| && part[k] == r;
    assert content[from + k] == part[k];
    WrittenIdsKnown(content, from + k);
  }

  /** Content made of the previous lines followed by the scraped records
      with a new id carries every scraped id. */
  lemma ContentIdsKnown(content: seq<Record>, previous: seq<Record>, local: seq<Record>, r: Record)
    requires |previous| <= |content| && content[..|previous|] == previous
    requires forall x :: x in content[|previous|..] <==> x in local && Id(x) !in KnownIds(previous)
    requires r in local && Id(r).Str? && Id(r).s != ""
    ensures Id(r) in KnownIds(FromTable(ToTable(content, HEADER)))
  {
    if Id(r) in KnownIds(previous) {
      var p :| p in previous && Id(p) != Null && Id(p) == Id(r);
      LineIdKnown(content, previous, 0, p);
    } else {
      LineIdKnown(content, content[|previous|..], |previous|, r);
    }
  }

  /** The scraped ids are all among the ids of the uploaded content. */
  lemma UploadedIdsKnown(stored: Option<Table>, local: seq<Record>, r: Record)
    requires forall r :: r in local ==> Id(r).Str? && Id(r).s != ""
    requires Sync(stored, local).Upload? && r in local
    ensures Id(r) in KnownIds(FromTable(ToTable(Sync(stored, local).content, HEADER)))
  {
    ContentIdsKnown(Sync(stored, local).content, FromTable(LoadPrevious(stored)), local, r);
  }

  /** Re-running with the same scraped reviews against the table just
      uploaded performs no upload, when every scraped id is a non-empty
      text (so that it reads back as itself). */
  lemma SecondRunNoUpload(stored: Option<Table>, local: seq<Record>)
    requires forall r :: r in local ==> Id(r).Str? && Id(r).s != ""
    requires Sync(stored, local).Upload?
    ensures Sync(Some(ToTable(Sync(stored, local).content, HEADER)), local) == NoNewIds
  {
    var table := ToTable(Sync(stored, local).content, HEADER);
    assert !SyncFails(table, local) by {
      assert HEADER[0] == ID_REVIEW;
      assert local[0] in local;
    }
    forall r | r in local
      ensures Id(r) in KnownIds(FromTable(table))
    {
      UploadedIdsKnown(stored, local, r);
    }
    AllKnownNoUpload(Some(table), local);
  }

  // ---------------------------------------------------------------------
  // The table across a whole run

  /** A line as it reads back and is written again under `n` columns: an
      empty cell becomes NaN, a short line is padded with NaN. */
  function Normal(row: seq<Value>, n: nat): (norm: seq<Value>)
    ensures |norm| == n
  {
    seq(n, j requires 0 <= j < n => if j < |row| then ReadCell(row[j]) else Null)
  }

  lemma NormalIdempotent(row: seq<Value>, n: nat)
    ensures Normal(Normal(row, n), n) == Normal(row, n)
  {
  }

  /** A stored line read back and written under the same distinct header
      is the normalised line. */
  lemma RewriteLine(header: seq<string>, row: seq<Value>)
    requires Distinct(header)
    ensures Row(Zip(header, row), header) == Normal(row, |header|)
  {
    forall j | 0 <= j < |header|
      ensures Row(Zip(header, row), header)[j] == Normal(row, |header|)[j]
    {
      ZipAt(header, row, j);
    }
  }

  /** Uploading `Sync`'s content rewrites the previous lines normalised,
      in their order, and adds at least one line. */
  lemma UploadKeepsLines(stored: Option<Table>, local: seq<Record>)
    requires stored.Some? && stored.value.header == HEADER
    requires Sync(stored, local).Upload?
    ensures var t := ToTable(Sync(stored, local).content, HEADER);
      && t.header == HEADER
      && |t.rows| > |stored.value.rows|
      && forall j :: 0 <= j < |stored.value.rows| ==> t.rows[j] == Normal(stored.value.rows[j], |HEADER|)
  {
    var content := Sync(stored, local).content;
    var previous := FromTable(stored.value);
    HeadersDistinct();
    forall j | 0 <= j < |stored.value.rows|
      ensures ToTable(content, HEADER).rows[j] == Normal(stored.value.rows[j], |HEADER|)
    {
      assert content[j] == content[..|previous|][j] == Zip(HEADER, stored.value.rows[j]);
      RewriteLine(HEADER, stored.value.rows[j]);
    }
  }

  /** The reviews kept for URL `i`: what the pagination loop gathers
      from its page, each stamped with the URL's `k`-th clock reading. */
  function Scraped(i: nat, maxReviews: int, batch: (nat, int) -> seq<Record>, stamp: (nat, nat) -> string): seq<Record> {
    TagAll(Gathered((o: int) => batch(i, o), maxReviews), (k: nat) => stamp(i, k), None)
  }

  /** What the read of the store for URL `i` gives: the object, or None
      when the read fails (`load_s3_reviews` then answers an empty table). */
  function ReadFor(current: Option<Table>, i: nat, readOk: nat -> bool): Option<Table> {
    if readOk(i) then current else None
  }

  /** The combined object once URL `i` is done, from `current`: unchanged
      when the sort fails (the menu never opens, or lacks the item, which
      raises and is logged), when the comparison with what the read gives
      raises or when no id is new; otherwise the table uploaded. */
  function AfterUrl(current: Option<Table>, i: nat, maxReviews: int, opens: (nat, nat) -> bool, items: nat -> nat,
                    batch: (nat, int) -> seq<Record>, stamp: (nat, nat) -> string, readOk: nat -> bool): Option<Table>
  {
    if !(MenuOpens(opens, i) && PyIndex(NEWEST, items(i)).Some?) then current
    else
      match Sync(ReadFor(current, i, readOk), Scraped(i, maxReviews, batch, stamp))
      case Upload(content) => Some(ToTable(content, HEADER))
      case _ => current
  }

  /** The combined object once the first `count` URLs are done. */
  function MonitorRun(count: nat, stored: Option<Table>, maxReviews: int, opens: (nat, nat) -> bool,
                      items: nat -> nat, batch: (nat, int) -> seq<Record>, stamp: (nat, nat) -> string,
                      readOk: nat -> bool): Option<Table>
  {
    if count == 0 then stored
    else AfterUrl(MonitorRun(count - 1, stored, maxReviews, opens, items, batch, stamp, readOk), count - 1,
                  maxReviews, opens, items, batch, stamp, readOk)
  }

  /** A URL whose sort fails leaves the combined object as it was, and
      the next URL proceeds from it. */
  lemma SortFailureSkips(count: nat, stored: Option<Table>, maxReviews: int, opens: (nat, nat) -> bool,
                         items: nat -> nat, batch: (nat, int) -> seq<Record>, stamp: (nat, nat) -> string,
                         readOk: nat -> bool)
    requires !MenuOpens(opens, count) || PyIndex(NEWEST, items(count)).None?
    ensures MonitorRun(count + 1, stored, maxReviews, opens, items, batch, stamp, readOk)
         == MonitorRun(count, stored, maxReviews, opens, items, batch, stamp, readOk)
  {
  }

  /** A failed read followed by an upload overwrites the combined object
      with the URL's scrape alone: every line stored before is lost. */
  lemma FailedReadDropsLines(count: nat, stored: Option<Table>, maxReviews: int, opens: (nat, nat) -> bool,
                             items: nat -> nat, batch: (nat, int) -> seq<Record>, stamp: (nat, nat) -> string,
                             readOk: nat -> bool)
    requires !readOk(count) && MenuOpens(opens, count) && PyIndex(NEWEST, items(count)).Some?
    requires exists r :: r in Scraped(count, maxReviews, batch, stamp) && ID_REVIEW in r
    ensures MonitorRun(count + 1, stored, maxReviews, opens, items, batch, stamp, readOk)
         == Some(ToTable(Scraped(count, maxReviews, batch, stamp), HEADER))
  {
    NothingStoredUploadsAll(Scraped(count, maxReviews, batch, stamp));
  }

  /** The body of the per-URL `try` of `scrape_and_monitor_reviews` for
      URL `u`, from the combined object `current`: `next` is the object
      after it, and `uploaded` says whether it was written. */
  method MonitorUrl(current: Option<Table>, u: nat, maxReviews: int,
                    opens: (nat, nat) -> bool, items: nat -> nat,
                    batch: (nat, int) -> seq<Record>, stamp: (nat, nat) -> string, readOk: nat -> bool)
    returns (next: Option<Table>, uploaded: bool)
    ensures next == AfterUrl(current, u, maxReviews, opens, items, batch, stamp, readOk)
    ensures !uploaded ==> next == current
    ensures uploaded ==> next.Some? && next.value.header == HEADER
    ensures maxReviews <= 0 ==> !uploaded
    ensures (forall k: nat :: !opens(u, k)) ==> !uploaded
    ensures readOk(u) && current.Some? ==>
      next.Some? && |next.value.rows| >= |current.value.rows| + (if uploaded then 1 else 0)
    ensures readOk(u) && current.Some? && current.value.header == HEADER ==>
      forall j :: 0 <= j < |current.value.rows| ==>
        next.value.rows[j] == if uploaded then Normal(current.value.rows[j], |HEADER|) else current.value.rows[j]
  {
    next, uploaded := current, false;
    var sorted := SortPage(opens, u, items(u), NEWEST);
    if sorted != Sorted {
      return;
    }
    var page := (o: int) => batch(u, o);
    var st := (k: nat) => stamp(u, k);
    var kept, _, _ := Collect(page, maxReviews, st, None);
    GatheredSame(page, (o: int) => batch(u, o), maxReviews);
    TagAllSame(Gathered(page, maxReviews), st, (k: nat) => stamp(u, k), None);
    assert kept == Scraped(u, maxReviews, batch, stamp);
    var previous := ReadFor(current, u, readOk);
    var outcome := Sync(previous, kept);
    if outcome.Upload? {
      if maxReviews <= 0 {
        EmptyScrapeFails(previous);
      }
      var written := ToTable(outcome.content, HEADER);
      if previous.Some? && previous.value.header == HEADER {
        UploadKeepsLines(previous, kept);
      } else if previous.Some? {
        assert |outcome.content| > |FromTable(previous.value)|;
      }
      next, uploaded := Some(written), true;
    }
  }

  /** What the run keeps from `stored` once `uploads` uploads have
      written `final`; `allRead` says that every read of the store works. */
  predicate Monitored(stored: Option<Table>, final: Option<Table>, uploads: nat, allRead: bool) {
    && (uploads == 0 ==> final == stored)
    && (uploads > 0 ==> final.Some? && final.value.header == HEADER)
    && (stored.Some? && allRead ==> final.Some? && |final.value.rows| >= |stored.value.rows| + uploads)
    && (stored.Some? && stored.value.header == HEADER && allRead ==>
          forall j :: 0 <= j < |stored.value.rows| ==>
            final.value.rows[j] == if uploads == 0 then stored.value.rows[j] else Normal(stored.value.rows[j], |HEADER|))
  }

  /** One URL done, as `MonitorUrl` describes it, keeps `Monitored`. */
  lemma MonitoredNext(stored: Option<Table>, final: Option<Table>, uploads: nat, allRead: bool,
                      next: Option<Table>, uploaded: bool, read: bool)
    requires Monitored(stored, final, uploads, allRead)
    requires allRead ==> read
    requires !uploaded ==> next == final
    requires uploaded ==> next.Some? && next.value.header == HEADER
    requires read && final.Some? ==> next.Some? && |next.value.rows| >= |final.value.rows| + (if uploaded then 1 else 0)
    requires read && final.Some? && final.value.header == HEADER ==>
      forall j :: 0 <= j < |final.value.rows| ==>
        next.value.rows[j] == if uploaded then Normal(final.value.rows[j], |HEADER|) else final.value.rows[j]
    ensures Monitored(stored, next, if uploaded then uploads + 1 else uploads, allRead)
  {
    if uploaded && stored.Some? && stored.value.header == HEADER && allRead {
      forall j | 0 <= j < |stored.value.rows|
        ensures next.value.rows[j] == Normal(stored.value.rows[j], |HEADER|)
      {
        NormalIdempotent(stored.value.rows[j], |HEADER|);
      }
    }
  }

  /** `scrape_and_monitor_reviews` over `urls`: attempt `k` to open the
      sort menu for URL `i` works when `opens(i, k)`, its menu has
      `items(i)` entries, its page gives `batch(i, offset)`, the `k`-th
      review kept for it is stamped `stamp(i, k)`, and the read of the
      store for it works when `readOk(i)`. `stored` is the combined object
      before the run, `final` after it; `uploads` counts the uploads. A
      failed sort skips the URL; an exception is logged and the next URL
      proceeds. Stored lines are kept when every read works; a failed
      read can lose them (`FailedReadDropsLines`). */
  method ScrapeAndMonitor(urls: seq<string>, maxReviews: int,
                          opens: (nat, nat) -> bool, items: nat -> nat,
                          batch: (nat, int) -> seq<Record>, stamp: (nat, nat) -> string,
                          readOk: nat -> bool, stored: Option<Table>)
    returns (final: Option<Table>, uploads: nat)
    ensures final == MonitorRun(|urls|, stored, maxReviews, opens, items, batch, stamp, readOk)
    ensures uploads <= |urls|
    ensures uploads == 0 ==> final == stored
    ensures uploads > 0 ==> final.Some? && final.value.header == HEADER
    ensures maxReviews <= 0 ==> uploads == 0
    ensures (forall i: nat, k: nat :: !opens(i, k)) ==> uploads == 0
    ensures stored.Some? && (forall i :: 0 <= i < |urls| ==> readOk(i)) ==>
      final.Some? && |final.value.rows| >= |stored.value.rows| + uploads
    ensures stored.Some? && stored.value.header == HEADER && (forall i :: 0 <= i < |urls| ==> readOk(i)) ==>
      forall j :: 0 <= j < |stored.value.rows| ==>
        final.value.rows[j] == if uploads == 0 then stored.value.rows[j] else Normal(stored.value.rows[j], |HEADER|)
  {
    final, uploads := stored, 0;
    ghost var allRead := forall k :: 0 <= k < |urls| ==> readOk(k);
    for i := 0 to |urls|
      invariant final == MonitorRun(i, stored, maxReviews, opens, items, batch, stamp, readOk)
      invariant uploads <= i
      invariant maxReviews <= 0 ==> uploads == 0
      invariant (forall i: nat, k: nat :: !opens(i, k)) ==> uploads == 0
      invariant Monitored(stored, final, uploads, allRead)
    {
      var next, uploaded := MonitorUrl(final, i, maxReviews, opens, items, batch, stamp, readOk);
      MonitoredNext(stored, final, uploads, allRead, next, uploaded, readOk(i));
      if uploaded {
        final, uploads := next, uploads + 1;
      }
    }
  }
}
