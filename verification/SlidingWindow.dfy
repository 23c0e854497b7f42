/** Queues of times that are pruned from the front. */
module SlidingWindow {
  import opened Collections

  /** Drop times before the cutoff, inspecting only the front. */
  function Prune(times: seq<real>, cutoff: real): seq<real> {
    if times != [] && times[0] < cutoff then Prune(times[1..], cutoff) else times
  }

  predicate InOrder(h: seq<real>) {
    forall i, j :: 0 <= i < j < |h| ==> h[i] <= h[j]
  }

  function From(cutoff: real): real -> bool {
    (t: real) => cutoff <= t
  }

  /** Pruning drops the first k entries, all of them old, and stops at one that is not. */
  lemma {:induction false} PruneDrops(times: seq<real>, cutoff: real) returns (k: nat)
    ensures k <= |times| && Prune(times, cutoff) == times[k..]
    ensures (forall i :: 0 <= i < k ==> times[i] < cutoff) && (k < |times| ==> cutoff <= times[k])
  {
    k := 0;
    if times != [] && times[0] < cutoff {
      var more := PruneDrops(times[1..], cutoff);
      k := more + 1;
      forall i | 1 <= i < k
        ensures times[i] < cutoff
      {
        assert times[i] == times[1..][i - 1];
      }
    }
  }

  /** On an ordered queue, pruning the front keeps exactly the recent times. */
  lemma {:induction false} PruneIsFilter(times: seq<real>, cutoff: real)
    requires InOrder(times)
    ensures Prune(times, cutoff) == Filter(times, From(cutoff))
  {
    if times != [] {
      assert times == [times[0]] + times[1..];
      FilterConcat([times[0]], times[1..], From(cutoff));
      assert Front([times[0]]) == [];
      if times[0] < cutoff {
        PruneIsFilter(times[1..], cutoff);
        FilterNone([times[0]], From(cutoff));
        assert [] + Filter(times[1..], From(cutoff)) == Filter(times[1..], From(cutoff));
      } else {
        FilterAll(times, From(cutoff));
      }
    }
  }

  lemma {:induction false} FilterTwice(times: seq<real>, c: real, d: real)
    requires c <= d
    ensures Filter(Filter(times, From(c)), From(d)) == Filter(times, From(d))
  {
    if times != [] {
      FilterTwice(Front(times), c, d);
      assert times == Front(times) + [Last(times)];
      FilterSnoc(Front(times), Last(times), From(c));
      FilterSnoc(Front(times), Last(times), From(d));
      if c <= Last(times) {
        FilterSnoc(Filter(Front(times), From(c)), Last(times), From(d));
      } else {
        assert Filter(times, From(c)) == Filter(Front(times), From(c));
      }
    }
  }

  lemma {:induction false} FilterKeepsOrder(times: seq<real>, c: real)
    requires InOrder(times)
    ensures InOrder(Filter(times, From(c)))
  {
    if times != [] {
      FilterKeepsOrder(Front(times), c);
      FilterMembers(Front(times), From(c));
      var kept := Filter(Front(times), From(c));
      forall i | 0 <= i < |kept|
        ensures kept[i] <= Last(times)
      {
        assert kept[i] in Front(times);
      }
    }
  }

  /** Pruning a queue that was pruned earlier is like filtering all of it now. */
  lemma PruneAgain(times: seq<real>, c: real, d: real)
    requires InOrder(times) && c <= d
    ensures Prune(Filter(times, From(c)), d) == Filter(times, From(d))
  {
    FilterKeepsOrder(times, c);
    PruneIsFilter(Filter(times, From(c)), d);
    FilterTwice(times, c, d);
  }

  lemma PruneNothing(times: seq<real>, cutoff: real)
    requires times != [] ==> cutoff <= times[0]
    ensures Prune(times, cutoff) == times
  {
  }

  lemma InOrderSnoc(times: seq<real>, now: real)
    requires InOrder(times) && forall t :: t in times ==> t <= now
    ensures InOrder(times + [now])
  {
    forall i | 0 <= i < |times|
      ensures times[i] <= now
    {
      assert times[i] in times;
    }
  }

  method PopOld(times: seq<real>, cutoff: real) returns (kept: seq<real>)
    ensures kept == Prune(times, cutoff)
  {
    kept := times;
    while kept != [] && kept[0] < cutoff
      invariant Prune(kept, cutoff) == Prune(times, cutoff)
    {
      kept := kept[1..];
    }
  }
}
