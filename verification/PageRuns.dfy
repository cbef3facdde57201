/** First-fit searches: the lowest run of free numbers in a range, and the counting loop that finds it. */
module PageRuns {
  import opened Common

  ghost predicate FreeRun(used: set<nat>, p: nat, n: nat) {
    forall i :: p <= i < p + n ==> i !in used
  }

  /** p is the lowest place in lo..hi where n numbers in a row are free. */
  ghost predicate IsFirstFit(used: set<nat>, lo: nat, hi: nat, n: nat, p: nat) {
    lo <= p && p + n <= hi && FreeRun(used, p, n) && forall q: nat :: lo <= q < p ==> !FreeRun(used, q, n)
  }

  ghost predicate NoFit(used: set<nat>, lo: nat, hi: nat, n: nat) {
    forall q: nat :: lo <= q && q + n <= hi ==> !FreeRun(used, q, n)
  }

  /** The search as a function. */
  ghost function FirstFit(used: set<nat>, lo: nat, hi: nat, n: nat): (r: Option<nat>)
    ensures r.Some? ==> IsFirstFit(used, lo, hi, n, r.value)
    ensures r.None? ==> NoFit(used, lo, hi, n)
    decreases hi - lo
  {
    if lo + n > hi then None
    else if FreeRun(used, lo, n) then Some(lo)
    else if lo == hi then None
    else FirstFit(used, lo + 1, hi, n)
  }

  /** What the kernel's searches return: asking for no pages at all never succeeds. */
  ghost function Search(used: set<nat>, lo: nat, hi: nat, n: nat): Option<nat> {
    if n == 0 then None else FirstFit(used, lo, hi, n)
  }

  lemma FirstFitUnique(used: set<nat>, lo: nat, hi: nat, n: nat, p: nat)
    requires IsFirstFit(used, lo, hi, n, p)
    ensures FirstFit(used, lo, hi, n) == Some(p)
  {
  }

  lemma NoFitNone(used: set<nat>, lo: nat, hi: nat, n: nat)
    requires NoFit(used, lo, hi, n)
    ensures FirstFit(used, lo, hi, n) == None
  {
  }

  // ---- The counting loop ----

  /** Having looked at lo..at, the last `run` numbers are free, the one before them is not, and no n in a row were. */
  ghost predicate Counting(used: set<nat>, lo: nat, at: nat, n: nat, run: nat) {
    run < n && lo + run <= at && FreeRun(used, at - run, run) && (lo < at - run ==> at - run - 1 in used) &&
    NoFit(used, lo, at, n)
  }

  /** A used number starts the count again. */
  lemma CountUsed(used: set<nat>, lo: nat, at: nat, n: nat, run: nat)
    requires Counting(used, lo, at, n, run) && at in used
    ensures Counting(used, lo, at + 1, n, 0)
  {
    forall q: nat | lo <= q && q + n <= at + 1
      ensures !FreeRun(used, q, n)
    {
      assert q + n == at + 1 ==> q <= at < q + n;
    }
  }

  /** A free number makes the run longer, and the n-th one ends the search at the lowest fit. */
  lemma CountFree(used: set<nat>, lo: nat, at: nat, hi: nat, n: nat, run: nat)
    requires Counting(used, lo, at, n, run) && at !in used && at < hi
    ensures run + 1 < n ==> Counting(used, lo, at + 1, n, run + 1)
    ensures run + 1 == n ==> IsFirstFit(used, lo, hi, n, at - run)
  {
    forall q: nat | lo <= q && q + n <= at + 1 && q != at - run
      ensures !FreeRun(used, q, n)
    {
      if q + n == at + 1 && lo < at - run {
        assert q <= at - run - 1 < q + n || q > at - run;
      }
    }
  }
}
