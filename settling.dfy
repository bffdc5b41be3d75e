/** The page settler `scrollToEnd`: at most three rounds of "measure the
    document height, stop if it did not change, scroll to the bottom, dwell".
    The browser is abstracted to the sequence of heights it reports, one per
    measurement; the scroll and the dwell have no effect the model observes
    beyond the next reading. */
module PageSettling {

  /** The loop bound of `scrollToEnd`. */
  const MaxRounds: nat := 3

  /** The height a round compares its reading with: `previousHeight` starts
      at 0 and afterwards holds the last reading. */
  function PreviousHeight(heights: seq<int>, round: nat): int
    requires round <= |heights|
  {
    if round == 0 then 0 else heights[round - 1]
  }

  /** Round `round` reads the same height as the one before it and breaks. */
  predicate Unchanged(heights: seq<int>, round: nat)
    requires round < |heights|
  {
    heights[round] == PreviousHeight(heights, round)
  }

  /** Reference definition of the number of scrolls, counted from round
      `round`: the first unchanged round, or the round bound. */
  function ScrollCount(heights: seq<int>, round: nat): (n: nat)
    requires round <= MaxRounds <= |heights|
    ensures round <= n <= MaxRounds
    ensures forall r :: round <= r < n ==> !Unchanged(heights, r)
    ensures n < MaxRounds ==> Unchanged(heights, n)
    decreases MaxRounds - round
  {
    if round == MaxRounds then round
    else if Unchanged(heights, round) then round
    else ScrollCount(heights, round + 1)
  }

  /** A first reading of 0 equals the initial `previousHeight`, so the page
      is never scrolled; otherwise it is scrolled at least once. */
  lemma {:induction false} FirstReadingDecidesFirstScroll(heights: seq<int>)
    requires MaxRounds <= |heights|
    ensures heights[0] == 0 <==> ScrollCount(heights, 0) == 0
  {
    if heights[0] != 0 {
      assert !Unchanged(heights, 0);
      assert ScrollCount(heights, 0) == ScrollCount(heights, 1);
    }
  }

  /** The page is scrolled the full three times exactly when no round reads
      the height it read before (the first round compares with 0). */
  lemma {:induction false} AllRoundsIffNoRepeat(heights: seq<int>)
    requires MaxRounds <= |heights|
    ensures ScrollCount(heights, 0) == MaxRounds <==>
      heights[0] != 0 && heights[1] != heights[0] && heights[2] != heights[1]
  {
    if heights[0] != 0 {
      assert ScrollCount(heights, 0) == ScrollCount(heights, 1);
      if heights[1] != heights[0] {
        assert ScrollCount(heights, 1) == ScrollCount(heights, 2);
      }
    }
  }

  /** `scrollToEnd(page)` against a page that reports `heights[i]` at its
      `i`-th measurement. Returns how many heights were measured, how many
      scrolls (each followed by a dwell) were made, and the final
      `previousHeight`. */
  method ScrollToEnd(heights: seq<int>) returns (measured: nat, scrolled: nat, lastHeight: int)
    requires MaxRounds <= |heights|
    ensures scrolled <= measured <= MaxRounds
    ensures scrolled == ScrollCount(heights, 0)
    ensures measured == if scrolled < MaxRounds then scrolled + 1 else MaxRounds
    ensures forall r :: 0 <= r < scrolled ==> !Unchanged(heights, r)
    ensures scrolled < measured ==> Unchanged(heights, scrolled)
    ensures lastHeight == PreviousHeight(heights, scrolled)
  {
    var previousHeight := 0;
    measured, scrolled := 0, 0;
    for i := 0 to MaxRounds
      invariant measured == scrolled == i
      invariant previousHeight == PreviousHeight(heights, i)
      invariant ScrollCount(heights, 0) == ScrollCount(heights, i)
    {
      var newHeight := heights[i];
      measured := measured + 1;
      if newHeight == previousHeight {
        break;
      }
      previousHeight := newHeight;
      scrolled := scrolled + 1;
    }
    lastHeight := previousHeight;
  }
}
