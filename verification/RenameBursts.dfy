/** Per-PID rename accounting in a sliding window, over the rename times of one PID. */
module RenameBursts {
  import opened Collections
  import opened SlidingWindow

  const BURST_COUNT: nat := 20
  const BURST_WINDOW: real := 5.0

  /** The pruned queue of rename times, and the time of the last burst (0.0 for none). */
  datatype RenameState = RenameState(times: seq<real>, lastBurst: real)

  const INITIAL := RenameState([], 0.0)

  function Enqueue(s: RenameState, t: real): seq<real> {
    Prune(s.times + [t], t - BURST_WINDOW)
  }

  predicate Bursts(s: RenameState, t: real) {
    BURST_COUNT <= |Enqueue(s, t)| && BURST_WINDOW <= t - s.lastBurst
  }

  function Step(s: RenameState, t: real): RenameState {
    if Bursts(s, t) then RenameState([], t) else s.(times := Enqueue(s, t))
  }

  function Run(h: seq<real>): RenameState {
    if h == [] then INITIAL else Step(Run(Front(h)), Last(h))
  }

  // ------------------------------------------------ recount from the history

  /** How many renames of the history have been used up by bursts. */
  function Spent(h: seq<real>): (n: nat)
    ensures n <= |h|
    decreases |h|, 2
  {
    if h == [] then 0 else if Due(h) then |h| else Spent(Front(h))
  }

  function LastBurstTime(h: seq<real>): real
    decreases |h|, 3
  {
    if Spent(h) == 0 then 0.0 else h[Spent(h) - 1]
  }

  /** The renames since the last burst that are at most 5 seconds older than the latest one. */
  function Recount(h: seq<real>): seq<real>
    requires h != []
    decreases |h|, 0
  {
    Filter(h[Spent(Front(h))..], From(Last(h) - BURST_WINDOW))
  }

  /** The latest rename completes a burst: 20 of them are recent and the last burst is at least 5 seconds ago. */
  predicate Due(h: seq<real>)
    requires h != []
    decreases |h|, 1
  {
    BURST_COUNT <= |Recount(h)| && BURST_WINDOW <= Last(h) - LastBurstTime(Front(h))
  }

  /** The queue once the last rename has been added, given that it held the recent ones of those before. */
  lemma EnqueueIsRecount(all: seq<real>, c: real, s: RenameState)
    requires all != [] && InOrder(all) && c <= Last(all) - BURST_WINDOW
    requires s.times == Filter(Front(all), From(c))
    ensures Enqueue(s, Last(all)) == Filter(all, From(Last(all) - BURST_WINDOW))
  {
    assert all == Front(all) + [Last(all)];
    FilterSnoc(Front(all), Last(all), From(c));
    PruneAgain(all, c, Last(all) - BURST_WINDOW);
  }

  /** The detector's state after the history h, read off the history. */
  predicate Matches(h: seq<real>, s: RenameState) {
    && s.lastBurst == LastBurstTime(h)
    && s.times == if h == [] then [] else Filter(h[Spent(h)..], From(Last(h) - BURST_WINDOW))
  }

  lemma EnqueueFrom(h: seq<real>, n: nat, s: RenameState)
    requires h != [] && InOrder(h) && n < |h|
    requires s.times == if |h| == 1 then [] else Filter(Front(h)[n..], From(Last(Front(h)) - BURST_WINDOW))
    ensures Enqueue(s, Last(h)) == Filter(h[n..], From(Last(h) - BURST_WINDOW))
  {
    assert Front(h[n..]) == Front(h)[n..];
    assert |h| == 1 || Last(Front(h)) <= Last(h);
    var latest := if |h| == 1 then Last(h) else Last(Front(h));
    EnqueueIsRecount(h[n..], latest - BURST_WINDOW, s);
  }

  lemma EnqueueMatches(h: seq<real>, s: RenameState)
    requires h != [] && InOrder(h) && Matches(Front(h), s)
    ensures Enqueue(s, Last(h)) == Recount(h)
    ensures Bursts(s, Last(h)) <==> Due(h)
  {
    EnqueueFrom(h, Spent(Front(h)), s);
  }

  lemma StepMatches(h: seq<real>, s: RenameState)
    requires h != [] && InOrder(h) && Matches(Front(h), s)
    ensures Matches(h, Step(s, Last(h)))
  {
    EnqueueMatches(h, s);
    if Due(h) {
      assert Spent(h) == |h|;
      assert h[Spent(h)..] == [];
    } else {
      assert Spent(h) == Spent(Front(h));
    }
  }

  /** The pruned queue always equals the recount from the full history, and so the detector fires exactly when the
      recount says a burst is due. */
  lemma {:induction false} QueueIsRecount(h: seq<real>)
    requires InOrder(h)
    ensures Matches(h, Run(h))
    ensures h != [] ==> (Bursts(Run(Front(h)), Last(h)) <==> Due(h))
    ensures h != [] ==> Enqueue(Run(Front(h)), Last(h)) == Recount(h)
  {
    if h != [] {
      QueueIsRecount(Front(h));
      EnqueueMatches(h, Run(Front(h)));
      StepMatches(h, Run(Front(h)));
    }
  }

  /** Does the k-th rename raise a burst? */
  predicate FiresAt(h: seq<real>, k: nat)
    requires k < |h|
  {
    Bursts(Run(h[..k]), h[k])
  }

  /** The number of renames that a burst at rename k reports. */
  function CountAt(h: seq<real>, k: nat): nat
    requires k < |h|
  {
    |Enqueue(Run(h[..k]), h[k])|
  }

  lemma RunSnoc(h: seq<real>, t: real)
    ensures Run(h + [t]) == Step(Run(h), t)
    ensures FiresAt(h + [t], |h|) <==> Bursts(Run(h), t)
    ensures CountAt(h + [t], |h|) == |Enqueue(Run(h), t)|
  {
    assert Front(h + [t]) == h == (h + [t])[..|h|];
  }

  /** The k-th rename raises a burst exactly when the recount of the history up to it says so, and reports that
      recount. */
  lemma FiresWhenDue(h: seq<real>, k: nat)
    requires InOrder(h) && k < |h|
    ensures FiresAt(h, k) <==> Due(h[..k + 1])
    ensures CountAt(h, k) == |Recount(h[..k + 1])|
  {
    QueueIsRecount(h[..k + 1]);
    assert Front(h[..k + 1]) == h[..k];
  }

  lemma SpentSnoc(h: seq<real>, m: nat)
    requires m < |h|
    ensures Spent(h[..m + 1]) == if Due(h[..m + 1]) then m + 1 else Spent(h[..m])
  {
    assert Front(h[..m + 1]) == h[..m];
  }

  lemma {:induction false} SpentAfterBurst(h: seq<real>, k: nat, m: nat)
    requires InOrder(h) && k < m <= |h| && FiresAt(h, k)
    ensures k < Spent(h[..m])
  {
    SpentSnoc(h, m - 1);
    if k == m - 1 {
      FiresWhenDue(h, k);
    } else {
      SpentAfterBurst(h, k, m - 1);
    }
  }

  /** Read off the history alone, with n the renames up to the last burst: the k-th rename raises a burst exactly when
      20 renames after those are at most 5 seconds old and that burst, or the epoch, is 5 seconds ago. */
  lemma FiresIff(h: seq<real>, k: nat, n: nat)
    requires InOrder(h) && n <= k < |h|
    requires (n == 0 || FiresAt(h, n - 1)) && forall m :: n <= m < k ==> !FiresAt(h, m)
    ensures FiresAt(h, k) <==>
            20 <= CountAt(h, k) && 5.0 <= h[k] - if n == 0 then 0.0 else h[n - 1]
    ensures CountAt(h, k) == |Filter(h[n..k + 1], From(h[k] - 5.0))|
  {
    FiresWhenDue(h, k);
    SpentIsLastBurst(h, k, n);
    assert Front(h[..k + 1]) == h[..k] && h[..k + 1][n..] == h[n..k + 1];
  }

  lemma {:induction false} SpentIsLastBurst(h: seq<real>, k: nat, n: nat)
    requires InOrder(h) && n <= k <= |h|
    requires (n == 0 || FiresAt(h, n - 1)) && forall m :: n <= m < k ==> !FiresAt(h, m)
    ensures Spent(h[..k]) == n
    decreases k
  {
    if k > 0 {
      SpentSnoc(h, k - 1);
      FiresWhenDue(h, k - 1);
      if n < k {
        SpentIsLastBurst(h, k - 1, n);
      }
    }
  }

  /** Bursts are at least 5 seconds apart and no rename is counted in two of them: whatever a later burst counts
      comes after the rename that raised the earlier one. */
  lemma BurstsAreDisjoint(h: seq<real>, k: nat, m: nat)
    requires InOrder(h) && k < m < |h| && FiresAt(h, k) && FiresAt(h, m)
    ensures 5.0 <= h[m] - h[k]
    ensures k < Spent(h[..m])
    ensures CountAt(h, m) <= m - k
  {
    SpentAfterBurst(h, k, m);
    QueueIsRecount(h[..m]);
    assert LastBurstTime(h[..m]) == h[Spent(h[..m]) - 1];
    FiresWhenDue(h, m);
    RecountSize(h[..m + 1]);
    assert Front(h[..m + 1]) == h[..m];
  }

  lemma RecountSize(h: seq<real>)
    requires h != []
    ensures |Recount(h)| <= |h| - Spent(Front(h))
  {
    FilterMembers(h[Spent(Front(h))..], From(Last(h) - BURST_WINDOW));
  }
}
