/** The count-bounded pagination loop shared by the monitor and the
    scraper: fetch the reviews from an offset, keep them until the wanted
    number is held, advance the offset by the whole batch, and stop at an
    empty batch. The page is replaced by an oracle from offset to batch. */
module Pagination {
  import opened Wrappers
  import opened Records

  const RETRIEVAL_DATE: string := "retrieval_date"
  const SOURCE_URL: string := "source_url"

  /** A kept review: its retrieval date overwritten with the time of
      keeping, and, when a source is given, tagged with it. */
  function Tag(r: Record, stamp: string, source: Option<string>): (t: Record)
    ensures t.Keys == r.Keys + {RETRIEVAL_DATE} + (if source.Some? then {SOURCE_URL} else {})
    ensures t[RETRIEVAL_DATE] == Str(stamp)
    ensures source.Some? ==> t[SOURCE_URL] == Str(source.value)
    ensures forall k :: k in r && k != RETRIEVAL_DATE && (source.None? || k != SOURCE_URL) ==> t[k] == r[k]
  {
    var stamped := r[RETRIEVAL_DATE := Str(stamp)];
    if source.Some? then stamped[SOURCE_URL := Str(source.value)] else stamped
  }

  /** The `k`-th review kept is tagged with the `k`-th clock reading. */
  function TagAll(rs: seq<Record>, stamp: nat -> string, source: Option<string>): (ts: seq<Record>)
    ensures |ts| == |rs|
  {
    seq(|rs|, i requires 0 <= i < |rs| => Tag(rs[i], stamp(i), source))
  }

  lemma TagAllSnoc(rs: seq<Record>, r: Record, stamp: nat -> string, source: Option<string>)
    ensures TagAll(rs + [r], stamp, source) == TagAll(rs, stamp, source) + [Tag(r, stamp(|rs|), source)]
  {
  }

  /** All batches, one after the other. */
  function Concat(batches: seq<seq<Record>>): (all: seq<Record>)
    ensures batches == [] ==> all == []
  {
    if batches == [] then [] else Concat(batches[..|batches| - 1]) + batches[|batches| - 1]
  }

  lemma ConcatSnoc(batches: seq<seq<Record>>, b: seq<Record>)
    ensures Concat(batches + [b]) == Concat(batches) + b
  {
    assert (batches + [b])[..|batches|] == batches;
  }

  /** Each batch is what the page gave at the offset where the batches
      before it end. */
  predicate Fetched(batch: int -> seq<Record>, batches: seq<seq<Record>>) {
    batches == []
    || (Fetched(batch, batches[..|batches| - 1])
        && batches[|batches| - 1] == batch(|Concat(batches[..|batches| - 1])|))
  }

  lemma {:induction false} FetchedAt(batch: int -> seq<Record>, batches: seq<seq<Record>>, i: int)
    requires Fetched(batch, batches) && 0 <= i < |batches|
    ensures batches[i] == batch(|Concat(batches[..i])|)
    decreases |batches|
  {
    var init := batches[..|batches| - 1];
    if i < |batches| - 1 {
      FetchedAt(batch, init, i);
      assert init[..i] == batches[..i];
    }
  }

  /** The reviews the loop keeps, before tagging, when `held` are already
      kept (all of them fetched) and the next fetch starts at `offset`:
      each batch in turn, up to the first empty one, the last batch cut
      where `cap` reviews are held. */
  function Gather(batch: int -> seq<Record>, cap: int, held: nat, offset: int): (rs: seq<Record>)
    requires held < cap
    ensures |rs| <= cap - held
    decreases cap - held
  {
    var reviews := batch(offset);
    if reviews == [] then []
    else if held + |reviews| >= cap then reviews[..cap - held]
    else reviews + Gather(batch, cap, held + |reviews|, offset + |reviews|)
  }

  /** The reviews the whole loop keeps, before tagging. */
  function Gathered(batch: int -> seq<Record>, cap: int): (rs: seq<Record>)
    ensures |rs| <= if cap > 0 then cap else 0
  {
    if cap <= 0 then [] else Gather(batch, cap, 0, 0)
  }

  /** One more fetch of the loop, seen from what it gathers. */
  lemma GatherNext(batch: int -> seq<Record>, cap: int, pre: seq<Record>, offset: int)
    requires |pre| < cap && Gathered(batch, cap) == pre + Gather(batch, cap, |pre|, offset)
    ensures var reviews := batch(offset);
      && (reviews == [] ==> Gathered(batch, cap) == pre)
      && (reviews != [] && |pre| + |reviews| < cap ==>
            Gathered(batch, cap) == (pre + reviews) + Gather(batch, cap, |pre| + |reviews|, offset + |reviews|))
      && (reviews != [] && |pre| + |reviews| >= cap ==> Gathered(batch, cap) == pre + reviews[..cap - |pre|])
  {
  }

  /** Every review gathered is one the page gave at some offset. */
  lemma {:induction false} GatherFrom(batch: int -> seq<Record>, cap: int, held: nat, offset: int, j: int)
    requires held < cap && 0 <= j < |Gather(batch, cap, held, offset)|
    ensures exists o :: Gather(batch, cap, held, offset)[j] in batch(o)
    decreases cap - held
  {
    var reviews := batch(offset);
    if held + |reviews| >= cap {
      assert reviews[..cap - held][j] in reviews;
    } else if j < |reviews| {
      assert (reviews + Gather(batch, cap, held + |reviews|, offset + |reviews|))[j] == reviews[j];
    } else {
      GatherFrom(batch, cap, held + |reviews|, offset + |reviews|, j - |reviews|);
    }
  }

  lemma GatheredFrom(batch: int -> seq<Record>, cap: int, j: int)
    requires 0 <= j < |Gathered(batch, cap)|
    ensures exists o :: Gathered(batch, cap)[j] in batch(o)
  {
    GatherFrom(batch, cap, 0, 0, j);
  }

  /** Two pages that give the same batches gather the same reviews. */
  lemma GatheredSame(f: int -> seq<Record>, g: int -> seq<Record>, cap: int)
    requires forall o :: f(o) == g(o)
    ensures Gathered(f, cap) == Gathered(g, cap)
  {
    if cap > 0 {
      GatherSame(f, g, cap, 0, 0);
    }
  }

  /** Two pages that give the same batches are gathered alike. */
  lemma {:induction false} GatherSame(f: int -> seq<Record>, g: int -> seq<Record>, cap: int, held: nat, offset: int)
    requires held < cap && forall o :: f(o) == g(o)
    ensures Gather(f, cap, held, offset) == Gather(g, cap, held, offset)
    decreases cap - held
  {
    var reviews := f(offset);
    if reviews != [] && held + |reviews| < cap {
      GatherSame(f, g, cap, held + |reviews|, offset + |reviews|);
    }
  }

  /** Two clocks that read alike tag alike. */
  lemma TagAllSame(rs: seq<Record>, s: nat -> string, t: nat -> string, source: Option<string>)
    requires forall k: nat :: s(k) == t(k)
    ensures TagAll(rs, s, source) == TagAll(rs, t, source)
  {
  }

  /** The inner `for` loop: keep the reviews of one batch, in order,
      while fewer than `cap` are held. */
  method Keep(kept: seq<Record>, reviews: seq<Record>, cap: int, stamp: nat -> string, source: Option<string>,
              ghost before: seq<Record>)
    returns (held: seq<Record>)
    requires kept == TagAll(before, stamp, source) && |before| < cap
    ensures |held| == if |before| + |reviews| <= cap then |before| + |reviews| else cap
    ensures held == TagAll((before + reviews)[..|held|], stamp, source)
  {
    held := kept;
    var j := 0;
    while j < |reviews|
      invariant 0 <= j <= |reviews|
      invariant |held| == |before| + j <= cap
      invariant held == TagAll((before + reviews)[..|held|], stamp, source)
    {
      if |held| >= cap {
        break;
      }
      var all := before + reviews;
      assert all[..|held| + 1] == all[..|held|] + [reviews[j]];
      TagAllSnoc(all[..|held|], reviews[j], stamp, source);
      held := held + [Tag(reviews[j], stamp(|held|), source)];
      j := j + 1;
    }
  }

  /** What the loop holds once `batches` are fetched, `kept` are kept and
      the next fetch starts at `offset`: the batches were fetched in
      order, the reviews kept are the first ones fetched, tagged, and,
      while fewer than `cap` are held, what remains to be gathered comes
      from `offset` on. */
  predicate Holding(batch: int -> seq<Record>, cap: int, stamp: nat -> string, source: Option<string>,
                    kept: seq<Record>, batches: seq<seq<Record>>, offset: int)
  {
    && Fetched(batch, batches)
    && offset == |Concat(batches)|
    && |kept| <= |Concat(batches)|
    && kept == TagAll(Concat(batches)[..|kept|], stamp, source)
    && (cap <= 0 ==> kept == [] && batches == [])
    && (cap > 0 ==> |kept| <= cap)
    && (|kept| == |Concat(batches)| || |kept| == cap)
    && (batches != [] ==> |Concat(batches[..|batches| - 1])| < cap)
    && (|kept| < cap ==> Gathered(batch, cap) == Concat(batches) + Gather(batch, cap, |kept|, offset))
    && (cap > 0 && |kept| == cap ==> Gathered(batch, cap) == Concat(batches)[..cap])
  }

  /** A non-empty batch fetched and kept up to the cap. */
  lemma HoldingNext(batch: int -> seq<Record>, cap: int, stamp: nat -> string, source: Option<string>,
                    kept: seq<Record>, batches: seq<seq<Record>>, offset: int, held: seq<Record>)
    requires Holding(batch, cap, stamp, source, kept, batches, offset) && |kept| < cap
    requires batch(offset) != []
    requires var pre := Concat(batches); var reviews := batch(offset);
      && |held| == (if |pre| + |reviews| <= cap then |pre| + |reviews| else cap)
      && held == TagAll((pre + reviews)[..|held|], stamp, source)
    ensures Holding(batch, cap, stamp, source, held, batches + [batch(offset)], offset + |batch(offset)|)
  {
    var reviews := batch(offset);
    var pre := Concat(batches);
    var after := batches + [reviews];
    ConcatSnoc(batches, reviews);
    assert after[..|after| - 1] == batches;
    assert Concat(after) == pre + reviews;
    assert Fetched(batch, after);
    GatherNext(batch, cap, pre, offset);
    if |pre| + |reviews| >= cap {
      assert (pre + reviews)[..cap] == pre + reviews[..cap - |pre|];
    }
  }

  /** The loop: `kept` are the reviews held, `batches` the batches fetched
      in order, `offset` where the next fetch would start. */
  method Collect(batch: int -> seq<Record>, cap: int, stamp: nat -> string, source: Option<string>)
    returns (kept: seq<Record>, batches: seq<seq<Record>>, offset: int)
    ensures Fetched(batch, batches)
    ensures offset == |Concat(batches)|
    ensures |kept| <= |Concat(batches)|
    ensures kept == TagAll(Concat(batches)[..|kept|], stamp, source)
    ensures cap <= 0 ==> kept == [] && batches == []
    ensures cap > 0 ==> |kept| <= cap && batches != []
    ensures forall i :: 0 <= i < |batches| - 1 ==> batches[i] != []
    ensures |kept| == |Concat(batches)| || |kept| == cap
    ensures 0 <= |kept| < cap ==> batches[|batches| - 1] == []
    ensures batches != [] && batches[|batches| - 1] != [] ==> |Concat(batches[..|batches| - 1])| < cap
    ensures kept == TagAll(Gathered(batch, cap), stamp, source)
  {
    kept, batches, offset := [], [], 0;
    while |kept| < cap
      invariant Holding(batch, cap, stamp, source, kept, batches, offset)
      invariant forall i :: 0 <= i < |batches| ==> batches[i] != []
      decreases cap - |kept|
    {
      var reviews := batch(offset);
      if reviews == [] {
        ghost var before := batches;
        ConcatSnoc(batches, reviews);
        batches := batches + [reviews];
        assert batches[..|batches| - 1] == before;
        GatherNext(batch, cap, Concat(before), offset);
        assert Concat(batches)[..|kept|] == Concat(batches);
        return;
      }
      assert Concat(batches)[..|kept|] == Concat(batches);
      var held := Keep(kept, reviews, cap, stamp, source, Concat(batches));
      HoldingNext(batch, cap, stamp, source, kept, batches, offset, held);
      kept, batches, offset := held, batches + [reviews], offset + |reviews|;
    }
    if cap > 0 {
      assert |kept| == cap;
    }
  }
}
