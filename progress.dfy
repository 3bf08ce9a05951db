/**
 * The counters behind progress_bar and write_matches of p2c_async.py: the
 * worker cap, the reset of PRIMER_AMOUNT_TOTAL / PRIMER_AMOUNT_PROCESSED
 * before a batch of primers, and the callback that counts one finished
 * primer, estimates the remaining time and decides on the final status line.
 */
module Progress {

  /** MAX_PARALLEL_PROC: a cap on the worker count; 0 or less means no cap. */
  const MaxParallelProc: int := 0

  /** The size of the worker pool for cpuCount processors and the cap MAX_PARALLEL_PROC. */
  function WorkerCount(cpuCount: nat, cap: int): (r: nat)
    ensures cap <= 0 ==> r == cpuCount
    ensures cap > 0 ==> r <= cpuCount && r <= cap && (r == cpuCount || r == cap)
  {
    if cap > 0 && cap < cpuCount then cap else cpuCount
  }

  /** With at least one processor there is at least one worker, whatever the cap. */
  lemma WorkerCountPositive(cpuCount: nat, cap: int)
    requires cpuCount >= 1
    ensures WorkerCount(cpuCount, cap) >= 1
  {
  }

  /** With MAX_PARALLEL_PROC = 0 there is no cap: every processor gets a worker. */
  lemma WorkerCountDefault(cpuCount: nat)
    ensures WorkerCount(cpuCount, MaxParallelProc) == cpuCount
  {
  }

  /**
   * The estimated remaining time: the mean time per finished primer times the
   * number of primers still to go. Float division is modelled on reals.
   */
  function Estimate(runtime: real, processed: int, total: int): real
    requires processed >= 1
  {
    (runtime / processed as real) * (total - processed) as real
  }

  /** The estimate is zero once every primer is done, and never negative while some remain. */
  lemma EstimateFacts(runtime: real, processed: int, total: int)
    requires processed >= 1 && runtime >= 0.0
    ensures processed == total ==> Estimate(runtime, processed, total) == 0.0
    ensures processed <= total ==> Estimate(runtime, processed, total) >= 0.0
  {
    var mean := runtime / processed as real;
    assert mean >= 0.0;
    if processed <= total {
      var rest := (total - processed) as real;
      assert rest >= 0.0;
      assert mean * rest >= 0.0;
    }
  }

  /** The global counters of the progress display. */
  class ProgressTracker {
    /** DISPLAY_PROGRESS */
    var display: bool
    /** PRIMER_AMOUNT_TOTAL */
    var total: int
    /** PRIMER_AMOUNT_PROCESSED */
    var processed: int

    /** The counters never go below zero. */
    predicate Valid()
      reads this
    {
      0 <= total && 0 <= processed
    }

    /** The module's initial values: both counters are 0. */
    constructor (display: bool)
      ensures Valid()
      ensures this.display == display && total == 0 && processed == 0
    {
      this.display := display;
      total := 0;
      processed := 0;
    }

    /** write_matches, before it starts the workers: with the display on, total := len(primer_list) and processed := 0. */
    method Reset(primerCount: nat)
      requires Valid()
      modifies this
      ensures Valid()
      ensures display == old(display)
      ensures display ==> total == primerCount && processed == 0
      ensures !display ==> total == old(total) && processed == old(processed)
    {
      if display {
        total := primerCount;
        processed := 0;
      }
    }

    /**
     * progress_bar, the callback of one finished primer: with the display off
     * nothing changes and nothing is printed; otherwise processed goes up by
     * exactly one, the estimate is computed (processed >= 1, so the division
     * is defined), and the final status line is printed exactly when
     * processed has reached total.
     */
    method ProgressBar(runtime: real) returns (printed: bool, estimate: real, finalLine: bool)
      requires Valid()
      modifies this
      ensures Valid()
      ensures !old(display) ==> !printed && !finalLine && unchanged(this)
      ensures old(display) ==> printed && display && processed == old(processed) + 1 && total == old(total)
      ensures old(display) ==> estimate == Estimate(runtime, processed, total)
      ensures finalLine <==> old(display) && processed == total
    {
      printed, estimate, finalLine := false, 0.0, false;
      if !display {
        return;
      }
      processed := processed + 1;
      printed := true;
      estimate := (runtime / processed as real) * (total - processed) as real;
      if total == processed {
        finalLine := true;
      }
    }
  }

  /** The number of tasks that finished without raising. */
  function Successes(succeeded: seq<bool>): (r: nat)
    ensures r <= |succeeded|
  {
    if |succeeded| == 0 then 0
    else Successes(succeeded[..|succeeded| - 1]) + (if succeeded[|succeeded| - 1] then 1 else 0)
  }

  /** Every task finished without raising exactly when the count of successes is the count of tasks. */
  lemma {:induction false} SuccessesAll(succeeded: seq<bool>)
    ensures Successes(succeeded) == |succeeded| <==> forall q :: 0 <= q < |succeeded| ==> succeeded[q]
  {
    if |succeeded| > 0 {
      var init := succeeded[..|succeeded| - 1];
      SuccessesAll(init);
      if Successes(succeeded) == |succeeded| {
        forall q | 0 <= q < |succeeded| ensures succeeded[q] {
          if q < |init| {
            assert succeeded[q] == init[q];
          }
        }
      } else {
        assert !succeeded[|succeeded| - 1] || exists q :: 0 <= q < |init| && !init[q];
      }
    }
  }

  /**
   * One call of write_matches with one task per primer. apply_async runs the
   * progress_bar callback only for a task whose find_match returns; a task
   * that raises (a primer re.compile rejects) skips it. succeeded[k] says
   * whether task k returned and elapsed[k] is the time its callback reads.
   * With the display on, every callback counts one primer and prints one
   * non-negative estimate, and the final line is printed once exactly when
   * there are primers and every task succeeded; with the display off nothing
   * is printed at all.
   */
  method WriteMatchesProgress(display: bool, primerCount: nat, elapsed: seq<real>, succeeded: seq<bool>)
    returns (processed: int, estimates: seq<real>, finalLines: nat)
    requires |elapsed| == primerCount && |succeeded| == primerCount
    requires forall q :: 0 <= q < |elapsed| ==> elapsed[q] >= 0.0
    ensures display ==> processed == Successes(succeeded) && |estimates| == Successes(succeeded)
    ensures display ==> finalLines == (if primerCount > 0 && Successes(succeeded) == primerCount then 1 else 0)
    ensures forall q :: 0 <= q < |estimates| ==> estimates[q] >= 0.0
    ensures !display ==> processed == 0 && estimates == [] && finalLines == 0
  {
    var tracker := new ProgressTracker(display);
    tracker.Reset(primerCount);
    estimates, finalLines := [], 0;
    for k := 0 to primerCount
      invariant tracker.Valid() && tracker.display == display
      invariant display ==> tracker.total == primerCount && tracker.processed == Successes(succeeded[..k]) && |estimates| == tracker.processed
      invariant !display ==> tracker.processed == 0 && estimates == []
      invariant forall q :: 0 <= q < |estimates| ==> estimates[q] >= 0.0
      invariant finalLines == (if display && primerCount > 0 && Successes(succeeded[..k]) == primerCount then 1 else 0)
    {
      assert succeeded[..k + 1][..k] == succeeded[..k];
      if succeeded[k] {
        var printed, estimate, finalLine := tracker.ProgressBar(elapsed[k]);
        if printed {
          EstimateFacts(elapsed[k], tracker.processed, tracker.total);
          estimates := estimates + [estimate];
        }
        if finalLine {
          finalLines := finalLines + 1;
        }
      }
    }
    assert succeeded[..primerCount] == succeeded;
    processed := tracker.processed;
  }
}
