/**
 * The scroll-termination state machine of `google_image_search`, which is the
 * same in both crawler scripts. Each round reads the page height, sends a
 * burst of PAGE_DOWN key presses and reads the height again; the browser is
 * modelled by the sequence of (before, after) heights it reports, one pair per
 * round. A finite sequence that runs out before convergence stands for a page
 * that keeps a crawler scrolling: the source has no round limit.
 */
module ScrollExpander {

  /** Key presses per round (`max_scroll_attempts`). */
  const MaxScrollAttempts: nat := 50
  /** Unchanged rounds in a row after which scrolling stops (`max_consecutive_failures`). */
  const MaxConsecutiveFailures: nat := 2

  /** The page height read before and after one burst of key presses. */
  datatype Round = Round(before: int, after: int)

  predicate Unchanged(r: Round) {
    r.after == r.before
  }

  /** The failure counter after one more round. */
  function NextFailures(failures: nat, r: Round): nat {
    if Unchanged(r) then failures + 1 else 0
  }

  predicate Converged(failures: nat) {
    failures >= MaxConsecutiveFailures
  }

  /** The failure counter after the given rounds, starting from 0. */
  function FailuresAfter(rounds: seq<Round>): nat {
    if rounds == [] then 0
    else NextFailures(FailuresAfter(rounds[..|rounds| - 1]), rounds[|rounds| - 1])
  }

  /** Round `n` (counting from 1) is the second of two unchanged rounds in a row. */
  ghost predicate StopsAfter(heights: seq<Round>, n: nat) {
    2 <= n <= |heights| && Unchanged(heights[n - 2]) && Unchanged(heights[n - 1])
  }

  ghost predicate EventuallyStops(heights: seq<Round>) {
    exists n: nat :: StopsAfter(heights, n)
  }

  /** The counter has converged exactly when the last two rounds left the height unchanged. */
  lemma FailuresConvergeIffTwoUnchanged(heights: seq<Round>, n: nat)
    requires n <= |heights|
    ensures Converged(FailuresAfter(heights[..n])) <==> StopsAfter(heights, n)
  {
    if n >= 1 {
      assert heights[..n][..n - 1] == heights[..n - 1];
      if n >= 2 {
        assert heights[..n - 1][..n - 2] == heights[..n - 2];
      } else {
        assert heights[..n - 1] == [];
      }
    }
  }

  /**
   * Scrolls until two consecutive rounds leave the height unchanged, or the
   * browser's rounds run out. `rounds` is the number of rounds completed,
   * `failures` is `consecutive_scroll_failures` and `scrollAttempts` is
   * `total_scroll_attempts`.
   */
  method ScrollToBottom(heights: seq<Round>)
    returns (converged: bool, rounds: nat, failures: nat, scrollAttempts: nat)
    ensures rounds <= |heights| && failures <= MaxConsecutiveFailures
    ensures failures == FailuresAfter(heights[..rounds])
    ensures scrollAttempts == MaxScrollAttempts * rounds
    ensures converged <==> Converged(failures)
    ensures converged ==> StopsAfter(heights, rounds)
    ensures forall n: nat :: n < rounds ==> !StopsAfter(heights, n)
    ensures !converged ==> rounds == |heights| && !EventuallyStops(heights)
    ensures converged <==> EventuallyStops(heights)
  {
    converged, rounds, failures, scrollAttempts := false, 0, 0, 0;
    while rounds < |heights|
      invariant rounds <= |heights|
      invariant failures == FailuresAfter(heights[..rounds]) && failures < MaxConsecutiveFailures
      invariant scrollAttempts == MaxScrollAttempts * rounds
      invariant forall n: nat :: n <= rounds ==> !StopsAfter(heights, n)
    {
      var previousHeight := heights[rounds].before;
      for attempt := 0 to MaxScrollAttempts
        invariant scrollAttempts == MaxScrollAttempts * rounds + attempt
      {
        scrollAttempts := scrollAttempts + 1;
      }
      var newHeight := heights[rounds].after;
      assert heights[..rounds + 1][..rounds] == heights[..rounds];
      FailuresConvergeIffTwoUnchanged(heights, rounds + 1);
      rounds := rounds + 1;
      if newHeight == previousHeight {
        failures := failures + 1;
        if failures >= MaxConsecutiveFailures {
          converged := true;
          break;
        }
      } else {
        failures := 0;
      }
    }
  }

  /**
   * A page whose height stops changing from round `k` on (counting from 0)
   * converges within `k + 2` rounds: the stop is no later than round k + 2.
   */
  lemma StableHeightConverges(heights: seq<Round>, k: nat)
    requires k + 2 <= |heights|
    requires forall j :: k <= j < |heights| ==> Unchanged(heights[j])
    ensures EventuallyStops(heights)
    ensures exists n: nat :: n <= k + 2 && StopsAfter(heights, n)
  {
    assert StopsAfter(heights, k + 2);
  }

  /** A page whose height changes at least every other round never converges. */
  lemma AlternatingGrowthNeverStops(heights: seq<Round>)
    requires forall j :: 0 <= j < |heights| - 1 ==> !Unchanged(heights[j]) || !Unchanged(heights[j + 1])
    ensures !EventuallyStops(heights)
  {
  }
}
