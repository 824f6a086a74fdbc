/** The two browser routines that loop: scrolling the review list until no
    more reviews load (`__scroll`) and opening the sort menu with retries
    (`sort_by`). The browser is replaced by oracles: the scroll height read
    after each command, and whether each attempt to open the menu works. */
module Browser {
  import opened Wrappers

  /** Scroll commands issued at most by default. */
  const MAX_SCROLLS: nat := 40
  /** Attempts to open the sort menu. */
  const MAX_RETRY: nat := 5
  /** Unchanged readings in a row that end the scrolling. */
  const STABLE_READINGS: nat := 3

  // ---------------------------------------------------------------------
  // Scrolling

  /** How the scrolling ended: no growth three times in a row, the command
      budget used up, or an error (logged, never raised). */
  datatype ScrollEnd = Stable | Exhausted | Failed

  /** The scroll commands issued and how the scrolling ended. */
  datatype ScrollResult = ScrollResult(commands: nat, end: ScrollEnd)

  /** Reading `i` (0 before the first command, `i` after command `i`)
      matches the three before it. */
  predicate ThreeUnchanged(height: nat -> Option<int>, i: nat) {
    i >= STABLE_READINGS && height(i).Some?
    && height(i) == height(i - 1) && height(i - 1) == height(i - 2) && height(i - 2) == height(i - 3)
  }

  /** The scrolling stops after command `i`: its reading failed or it is
      the third unchanged one in a row. */
  predicate Stops(height: nat -> Option<int>, i: nat) {
    height(i).None? || ThreeUnchanged(height, i)
  }

  /** The first command in `from..max` after which the scrolling stops. */
  function FirstStop(height: nat -> Option<int>, from: nat, max: nat): (r: Option<nat>)
    ensures r.Some? ==> from <= r.value <= max && Stops(height, r.value)
    ensures r.Some? ==> forall j :: from <= j < r.value ==> !Stops(height, j)
    ensures r.None? ==> forall j :: from <= j <= max ==> !Stops(height, j)
    decreases max - from
  {
    if from > max then None
    else if Stops(height, from) then Some(from)
    else FirstStop(height, from + 1, max)
  }

  /** What `__scroll(max_scrolls)` does: nothing when the list or its first
      height cannot be read; otherwise one command after another until the
      first stop, or `max` commands. */
  function ScrollOutcome(found: bool, height: nat -> Option<int>, max: nat): (r: ScrollResult)
    ensures r.commands <= max
    ensures r.end == Exhausted ==> r.commands == max
  {
    if !found || height(0).None? then ScrollResult(0, Failed)
    else match FirstStop(height, 1, max)
      case None => ScrollResult(max, Exhausted)
      case Some(c) => ScrollResult(c, if height(c).None? then Failed else Stable)
  }

  /** The number of readings in a row, ending at `i`, equal to the one
      before them: the `no_change_count` after command `i`. */
  function Unchanged(height: nat -> Option<int>, i: nat): nat {
    if i == 0 || height(i) != height(i - 1) then 0 else Unchanged(height, i - 1) + 1
  }

  lemma UnchangedThree(height: nat -> Option<int>, i: nat)
    requires height(i).Some?
    ensures Unchanged(height, i) >= STABLE_READINGS <==> ThreeUnchanged(height, i)
  {
  }

  /** `__scroll`: `lastHeight` is the latest reading, so a change resets
      the count and records the new height. */
  method Scroll(found: bool, height: nat -> Option<int>, maxScrolls: nat) returns (r: ScrollResult)
    ensures r == ScrollOutcome(found, height, maxScrolls)
  {
    if !found || height(0).None? {
      return ScrollResult(0, Failed);
    }
    var lastHeight := height(0).value;
    var attempts: nat := 0;
    var noChange: nat := 0;
    while attempts < maxScrolls
      invariant attempts <= maxScrolls
      invariant forall j :: 1 <= j <= attempts ==> !Stops(height, j)
      invariant height(attempts) == Some(lastHeight)
      invariant noChange == Unchanged(height, attempts) < STABLE_READINGS
      invariant FirstStop(height, 1, maxScrolls) == FirstStop(height, attempts + 1, maxScrolls)
      decreases maxScrolls - attempts
    {
      var newHeight := height(attempts + 1);
      if newHeight.None? {
        return ScrollResult(attempts + 1, Failed);
      }
      if newHeight.value == lastHeight {
        noChange := noChange + 1;
        if noChange >= STABLE_READINGS {
          UnchangedThree(height, attempts + 1);
          return ScrollResult(attempts + 1, Stable);
        }
      } else {
        noChange := 0;
        lastHeight := newHeight.value;
      }
      UnchangedThree(height, attempts + 1);
      attempts := attempts + 1;
    }
    return ScrollResult(attempts, Exhausted);
  }

  /** Heights that grow `k` times and then stay put give exactly `k + 3`
      commands, when the budget allows that many. */
  lemma GrowThenSettle(height: nat -> Option<int>, max: nat, k: nat)
    requires k + STABLE_READINGS <= max
    requires forall i: nat :: i <= k + STABLE_READINGS ==> height(i).Some?
    requires forall i: nat :: 1 <= i <= k ==> height(i) != height(i - 1)
    requires forall i: nat :: k < i <= k + STABLE_READINGS ==> height(i) == height(k)
    ensures ScrollOutcome(true, height, max) == ScrollResult(k + STABLE_READINGS, Stable)
  {
    forall j | 1 <= j < k + STABLE_READINGS
      ensures !Stops(height, j)
    {
      if j <= k {
        assert height(j) != height(j - 1);
      } else if j >= STABLE_READINGS {
        assert height(j - 2) != height(j - 3);
      }
    }
    assert Stops(height, k + STABLE_READINGS);
    assert height(0).Some?;
    var c := FirstStop(height, 1, max);
    assert c.Some? && c.value == k + STABLE_READINGS;
  }

  // ---------------------------------------------------------------------
  // Opening the sort menu

  /** How `sort_by` ends: 0 after clicking a menu item, -1 when the menu
      never opened, or an IndexError when there is no item `ind`. */
  datatype SortResult = Sorted | NotOpened | NoSuchItem

  /** The value `sort_by` returns, when it returns. */
  function ReturnCode(r: SortResult): int
    requires !r.NoSuchItem?
  {
    if r == Sorted then 0 else -1
  }

  /** Python's `items[ind]` on a list of `n` items: the position it
      names, counting from the end when negative, or None for an
      IndexError. */
  function PyIndex(ind: int, n: nat): (r: Option<nat>)
    ensures r.Some? <==> -(n as int) <= ind < n
    ensures r.Some? ==> r.value < n && (r.value == ind || r.value == n + ind)
  {
    if 0 <= ind < n then Some(ind) else if -(n as int) <= ind < 0 then Some(n + ind) else None
  }

  /** `sort_by(url, ind)`: `opens(k)` says whether attempt `k` to open the
      menu works; the menu holds `items` entries. Also gives the attempts
      made and the menu item clicked. */
  method SortBy(opens: nat -> bool, items: nat, ind: int)
    returns (r: SortResult, attempts: nat, clicked: Option<nat>)
    ensures 1 <= attempts <= MAX_RETRY
    ensures r == NotOpened <==> forall k: nat :: k < MAX_RETRY ==> !opens(k)
    ensures r == NotOpened ==> attempts == MAX_RETRY
    ensures r != NotOpened ==> opens(attempts - 1) && forall k: nat :: k < attempts - 1 ==> !opens(k)
    ensures r == NoSuchItem <==> r != NotOpened && PyIndex(ind, items).None?
    ensures clicked.Some? <==> r == Sorted
    ensures r == Sorted ==> clicked == PyIndex(ind, items)
  {
    var isClicked := false;
    var tries: nat := 0;
    attempts := 0;
    while !isClicked && tries < MAX_RETRY
      invariant tries < MAX_RETRY
      invariant forall k: nat :: k < tries ==> !opens(k)
      invariant attempts == if isClicked then tries + 1 else tries
      invariant isClicked ==> opens(tries)
      decreases MAX_RETRY - tries, if isClicked then 0 else 1
    {
      if opens(attempts) {
        isClicked := true;
      } else {
        tries := tries + 1;
      }
      attempts := attempts + 1;
      if tries == MAX_RETRY {
        return NotOpened, attempts, None;
      }
    }
    clicked := PyIndex(ind, items);
    r := if clicked.Some? then Sorted else NoSuchItem;
  }

  /** Some attempt to open the sort menu of page `i` works, where attempt
      `k` on page `i` works when `opens(i, k)`. */
  predicate MenuOpens(opens: (nat, nat) -> bool, i: nat) {
    exists k: nat :: k < MAX_RETRY && opens(i, k)
  }

  /** `sort_by` on page `i` of a run: how it ends, from whether its menu
      opens and whether it has item `ind`. */
  method SortPage(opens: (nat, nat) -> bool, i: nat, items: nat, ind: int) returns (r: SortResult)
    ensures r == NotOpened <==> !MenuOpens(opens, i)
    ensures r == NoSuchItem <==> MenuOpens(opens, i) && PyIndex(ind, items).None?
    ensures r == Sorted <==> MenuOpens(opens, i) && PyIndex(ind, items).Some?
  {
    var attempt := (k: nat) => opens(i, k);
    var attempts, clicked;
    r, attempts, clicked := SortBy(attempt, items, ind);
    assert forall k: nat :: attempt(k) == opens(i, k);
    if r != NotOpened {
      assert opens(i, attempts - 1);
    }
  }
}
