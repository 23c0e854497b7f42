/** Splitting a list at time gaps: the offline specification shared by sessions and campaigns. */
module GapSplit {
  import opened Collections

  function Flatten<T>(groups: seq<seq<T>>): seq<T> {
    if groups == [] then [] else Flatten(Front(groups)) + Last(groups)
  }

  /** Append x to the last group. */
  function Extend<T>(groups: seq<seq<T>>, x: T): seq<seq<T>>
    requires groups != []
  {
    Front(groups) + [Last(groups) + [x]]
  }

  /** Start a new group whenever an element lies more than `gap` after its predecessor. */
  function SplitAtGaps<T>(xs: seq<T>, time: T -> real, gap: real): (groups: seq<seq<T>>)
    ensures groups == [] <==> xs == []
  {
    if xs == [] then []
    else
      var groups := SplitAtGaps(Front(xs), time, gap);
      if groups != [] && time(Last(xs)) - time(Last(Front(xs))) <= gap then Extend(groups, Last(xs))
      else groups + [[Last(xs)]]
  }

  predicate GapBefore<T>(xs: seq<T>, i: nat, time: T -> real, gap: real)
    requires 0 < i < |xs|
  {
    gap < time(xs[i]) - time(xs[i - 1])
  }

  predicate WithoutGap<T>(group: seq<T>, time: T -> real, gap: real) {
    forall i :: 0 < i < |group| ==> !GapBefore(group, i, time, gap)
  }

  /** A run without a gap inside and with one before it, unless it is the first. */
  predicate RunAt<T>(groups: seq<seq<T>>, g: nat, time: T -> real, gap: real)
    requires g < |groups|
  {
    && groups[g] != [] && WithoutGap(groups[g], time, gap)
    && (0 < g ==> groups[g - 1] != [] && gap < time(groups[g][0]) - time(Last(groups[g - 1])))
  }

  /** The maximal gap-free runs of xs: non-empty, in order, together all of xs, each without a gap inside and with
      one before the next. */
  predicate MaximalRuns<T(==)>(groups: seq<seq<T>>, xs: seq<T>, time: T -> real, gap: real) {
    && Flatten(groups) == xs
    && forall g :: 0 <= g < |groups| ==> RunAt(groups, g, time, gap)
  }

  lemma {:induction false} SplitEndsWithLast<T>(xs: seq<T>, time: T -> real, gap: real)
    requires xs != []
    ensures var groups := SplitAtGaps(xs, time, gap);
            Last(groups) != [] && Last(Last(groups)) == Last(xs)
  {
  }

  lemma SplitSnoc<T>(xs: seq<T>, x: T, time: T -> real, gap: real)
    ensures var groups := SplitAtGaps(xs, time, gap);
            SplitAtGaps(xs + [x], time, gap) ==
            if xs != [] && time(x) - time(Last(xs)) <= gap then Extend(groups, x) else groups + [[x]]
  {
    assert Front(xs + [x]) == xs;
  }

  lemma FlattenSnoc<T>(groups: seq<seq<T>>, group: seq<T>)
    ensures Flatten(groups + [group]) == Flatten(groups) + group
  {
    assert Front(groups + [group]) == groups;
  }

  /** One more group that starts after a gap. */
  lemma AppendGroup<T>(groups: seq<seq<T>>, x: T, time: T -> real, gap: real)
    requires groups != [] ==> Last(groups) != []
    ensures MaximalRuns(groups + [[x]], Flatten(groups) + [x], time, gap) <==>
            && MaximalRuns(groups, Flatten(groups), time, gap)
            && (groups != [] ==> gap < time(x) - time(Last(Last(groups))))
  {
    var longer := groups + [[x]];
    FlattenSnoc(groups, [x]);
    assert forall g :: 0 <= g < |groups| ==> (RunAt(longer, g, time, gap) <==> RunAt(groups, g, time, gap));
    assert RunAt(longer, |groups|, time, gap) <==>
           (groups != [] ==> gap < time(x) - time(Last(Last(groups))));
  }

  lemma WithoutGapSnoc<T>(group: seq<T>, x: T, time: T -> real, gap: real)
    requires group != []
    ensures WithoutGap(group + [x], time, gap) <==>
            WithoutGap(group, time, gap) && time(x) - time(Last(group)) <= gap
  {
    var longer := group + [x];
    assert forall i :: 0 < i < |group| ==> (GapBefore(longer, i, time, gap) <==> GapBefore(group, i, time, gap));
    assert GapBefore(longer, |group|, time, gap) <==> gap < time(x) - time(Last(group));
  }

  /** One more element of the last group, close to the one before. */
  lemma ExtendGroup<T>(front: seq<seq<T>>, last: seq<T>, x: T, time: T -> real, gap: real)
    requires last != []
    ensures MaximalRuns(front + [last + [x]], Flatten(front + [last]) + [x], time, gap) <==>
            && MaximalRuns(front + [last], Flatten(front + [last]), time, gap)
            && time(x) - time(Last(last)) <= gap
  {
    var groups, longer := front + [last], front + [last + [x]];
    FlattenSnoc(front, last);
    FlattenSnoc(front, last + [x]);
    assert Flatten(front) + (last + [x]) == Flatten(front) + last + [x];
    WithoutGapSnoc(last, x, time, gap);
    assert forall g :: 0 <= g < |front| ==> (RunAt(longer, g, time, gap) <==> RunAt(groups, g, time, gap));
    assert RunAt(longer, |front|, time, gap) <==>
           RunAt(groups, |front|, time, gap) && time(x) - time(Last(last)) <= gap;
  }

  lemma LastOfFlatten<T>(groups: seq<seq<T>>)
    requires groups != [] && Last(groups) != []
    ensures Flatten(groups) != [] && Last(Flatten(groups)) == Last(Last(groups))
  {
  }

  /** Splitting yields maximal runs. */
  lemma {:induction false} SplitIsMaximal<T>(xs: seq<T>, time: T -> real, gap: real)
    ensures MaximalRuns(SplitAtGaps(xs, time, gap), xs, time, gap)
  {
    if xs != [] {
      var front, x := Front(xs), Last(xs);
      var groups := SplitAtGaps(front, time, gap);
      assert xs == front + [x];
      SplitIsMaximal(front, time, gap);
      SplitSnoc(front, x, time, gap);
      if front != [] {
        SplitEndsWithLast(front, time, gap);
        assert groups == Front(groups) + [Last(groups)];
        ExtendGroup(Front(groups), Last(groups), x, time, gap);
      }
      AppendGroup(groups, x, time, gap);
    }
  }

  /** ... and the maximal runs of a list are unique: any partition that is one is the split. */
  lemma {:induction false} MaximalRunsAreTheSplit<T>(groups: seq<seq<T>>, xs: seq<T>, time: T -> real, gap: real)
    requires MaximalRuns(groups, xs, time, gap)
    ensures groups == SplitAtGaps(xs, time, gap)
    decreases |xs|
  {
    if groups != [] {
      var front, last := Front(groups), Last(groups);
      assert RunAt(groups, |groups| - 1, time, gap);
      assert front != [] ==> RunAt(groups, |groups| - 2, time, gap);
      assert groups == front + [last];
      FlattenSnoc(front, last);
      if |last| == 1 {
        var x := last[0];
        assert last == [x];
        AppendGroup(front, x, time, gap);
        MaximalRunsAreTheSplit(front, Flatten(front), time, gap);
        SplitSnoc(Flatten(front), x, time, gap);
        if front != [] {
          LastOfFlatten(front);
        }
      } else {
        var rest, x := Front(last), Last(last);
        assert last == rest + [x];
        var shorter := front + [rest];
        FlattenSnoc(front, rest);
        assert xs == Flatten(shorter) + [x];
        ExtendGroup(front, rest, x, time, gap);
        MaximalRunsAreTheSplit(shorter, Flatten(shorter), time, gap);
        SplitSnoc(Flatten(shorter), x, time, gap);
        LastOfFlatten(shorter);
        assert Extend(shorter, x) == groups;
      }
    }
  }

  /** The runs are exactly what the split computes. */
  lemma SplitCharacterised<T>(groups: seq<seq<T>>, xs: seq<T>, time: T -> real, gap: real)
    ensures MaximalRuns(groups, xs, time, gap) <==> groups == SplitAtGaps(xs, time, gap)
  {
    SplitIsMaximal(xs, time, gap);
    if MaximalRuns(groups, xs, time, gap) {
      MaximalRunsAreTheSplit(groups, xs, time, gap);
    }
  }

  function LastGroup<T>(xs: seq<T>, time: T -> real, gap: real): seq<T> {
    if xs == [] then [] else Last(SplitAtGaps(xs, time, gap))
  }

  /** The last group is the suffix that starts at the last gap. */
  lemma {:induction false} LastGroupStartsAtLastGap<T>(xs: seq<T>, start: nat, time: T -> real, gap: real)
    requires start < |xs|
    requires 0 < start ==> GapBefore(xs, start, time, gap)
    requires forall i :: start < i < |xs| ==> !GapBefore(xs, i, time, gap)
    ensures xs[start..] == LastGroup(xs, time, gap)
  {
    var front, x := Front(xs), Last(xs);
    assert xs == front + [x];
    SplitSnoc(front, x, time, gap);
    if start < |xs| - 1 {
      assert 0 < start ==> GapBefore(front, start, time, gap);
      assert forall i :: start < i < |front| ==> (GapBefore(front, i, time, gap) <==> GapBefore(xs, i, time, gap));
      LastGroupStartsAtLastGap(front, start, time, gap);
      assert !GapBefore(xs, |xs| - 1, time, gap);
      assert xs[start..] == front[start..] + [x];
    } else if 0 < start {
      assert GapBefore(xs, |xs| - 1, time, gap);
    }
  }
}
