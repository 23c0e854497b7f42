/** The rolling budget of desktop popups. */
module PopupBudget {
  import opened Collections
  import opened SlidingWindow

  const NOTIFY_MAX_PER_WINDOW: nat := 3
  const NOTIFY_WINDOW_SECS: real := 30.0

  predicate Permits(queue: seq<real>, now: real) {
    |Prune(queue, now - NOTIFY_WINDOW_SECS)| < NOTIFY_MAX_PER_WINDOW
  }

  /** The queue after a request. A refusal at exactly the limit leaves a marker, which later counts like a popup. */
  function After(queue: seq<real>, now: real): seq<real> {
    var q := Prune(queue, now - NOTIFY_WINDOW_SECS);
    if |q| <= NOTIFY_MAX_PER_WINDOW then q + [now] else q
  }

  function Run(requests: seq<real>): seq<real> {
    if requests == [] then [] else After(Run(Front(requests)), Last(requests))
  }

  /** The times of the requests that were permitted. */
  function Permitted(requests: seq<real>): seq<real> {
    if requests == [] then []
    else Permitted(Front(requests)) + if Permits(Run(Front(requests)), Last(requests)) then [Last(requests)] else []
  }

  /** The times of the refusals that left a marker: those that found exactly three entries. */
  function Markers(requests: seq<real>): seq<real> {
    if requests == [] then []
    else Markers(Front(requests)) + if LeavesMarker(Run(Front(requests)), Last(requests)) then [Last(requests)] else []
  }

  predicate LeavesMarker(queue: seq<real>, now: real) {
    |Prune(queue, now - NOTIFY_WINDOW_SECS)| == NOTIFY_MAX_PER_WINDOW
  }

  lemma PruneIsSuffix(times: seq<real>, cutoff: real)
    ensures |Prune(times, cutoff)| <= |times|
    ensures forall t :: t in Prune(times, cutoff) ==> t in times
  {
    var _ := PruneDrops(times, cutoff);
  }

  /** The queue never holds more than four entries. */
  lemma {:induction false} QueueStaysShort(requests: seq<real>)
    ensures |Run(requests)| <= NOTIFY_MAX_PER_WINDOW + 1
  {
    if requests != [] {
      QueueStaysShort(Front(requests));
      PruneIsSuffix(Run(Front(requests)), Last(requests) - NOTIFY_WINDOW_SECS);
    }
  }

  /** From every cutoff on that can still matter, the queue holds one entry for each popup and one for each marker. */
  ghost predicate Counts(queue: seq<real>, permitted: seq<real>, markers: seq<real>, since: real) {
    forall c :: since <= c ==>
      |Filter(queue, From(c))| == |Filter(permitted, From(c))| + |Filter(markers, From(c))|
  }

  lemma PruneKeepsCount(queue: seq<real>, permitted: seq<real>, markers: seq<real>, since: real, cutoff: real)
    requires InOrder(queue) && Counts(queue, permitted, markers, since) && since <= cutoff
    ensures Counts(Prune(queue, cutoff), permitted, markers, cutoff) && InOrder(Prune(queue, cutoff))
    ensures |Prune(queue, cutoff)| == |Filter(permitted, From(cutoff))| + |Filter(markers, From(cutoff))|
  {
    PruneIsFilter(queue, cutoff);
    FilterKeepsOrder(queue, cutoff);
    forall c | cutoff <= c
      ensures |Filter(Prune(queue, cutoff), From(c))| == |Filter(permitted, From(c))| + |Filter(markers, From(c))|
    {
      FilterTwice(queue, cutoff, c);
    }
  }

  lemma PopupKeepsCount(queue: seq<real>, permitted: seq<real>, markers: seq<real>, since: real, now: real)
    requires Counts(queue, permitted, markers, since)
    ensures Counts(queue + [now], permitted + [now], markers, since)
  {
    forall c | since <= c
      ensures |Filter(queue + [now], From(c))| == |Filter(permitted + [now], From(c))| + |Filter(markers, From(c))|
    {
      FilterSnoc(queue, now, From(c));
      FilterSnoc(permitted, now, From(c));
      assert |Filter(queue, From(c))| == |Filter(permitted, From(c))| + |Filter(markers, From(c))|;
    }
  }

  lemma MarkerKeepsCount(queue: seq<real>, permitted: seq<real>, markers: seq<real>, since: real, now: real)
    requires Counts(queue, permitted, markers, since)
    ensures Counts(queue + [now], permitted, markers + [now], since)
  {
    forall c | since <= c
      ensures |Filter(queue + [now], From(c))| == |Filter(permitted, From(c))| + |Filter(markers + [now], From(c))|
    {
      FilterSnoc(queue, now, From(c));
      FilterSnoc(markers, now, From(c));
      assert |Filter(queue, From(c))| == |Filter(permitted, From(c))| + |Filter(markers, From(c))|;
    }
  }

  lemma RequestKeepsCount(queue: seq<real>, permitted: seq<real>, markers: seq<real>, since: real, now: real)
    requires InOrder(queue) && Counts(queue, permitted, markers, since) && since <= now - NOTIFY_WINDOW_SECS
    ensures Counts(After(queue, now),
                   if Permits(queue, now) then permitted + [now] else permitted,
                   if LeavesMarker(queue, now) then markers + [now] else markers,
                   now - NOTIFY_WINDOW_SECS)
  {
    var cutoff := now - NOTIFY_WINDOW_SECS;
    PruneKeepsCount(queue, permitted, markers, since, cutoff);
    if Permits(queue, now) {
      PopupKeepsCount(Prune(queue, cutoff), permitted, markers, cutoff, now);
    } else if LeavesMarker(queue, now) {
      MarkerKeepsCount(Prune(queue, cutoff), permitted, markers, cutoff, now);
    }
  }

  lemma RequestKeepsOrder(queue: seq<real>, now: real)
    requires InOrder(queue) && forall t :: t in queue ==> t <= now
    ensures InOrder(After(queue, now)) && forall t :: t in After(queue, now) ==> t <= now
  {
    var cutoff := now - NOTIFY_WINDOW_SECS;
    PruneIsFilter(queue, cutoff);
    FilterKeepsOrder(queue, cutoff);
    FilterMembers(queue, From(cutoff));
    InOrderSnoc(Prune(queue, cutoff), now);
  }

  lemma {:induction false} QueueInOrder(requests: seq<real>)
    requires InOrder(requests)
    ensures InOrder(Run(requests)) && forall t :: t in Run(requests) ==> t <= Last(requests)
  {
    if requests != [] {
      var front := Front(requests);
      QueueInOrder(front);
      assert front != [] ==> Last(front) == requests[|requests| - 2] <= Last(requests);
      RequestKeepsOrder(Run(front), Last(requests));
    }
  }

  lemma {:induction false} QueueCounts(requests: seq<real>)
    requires InOrder(requests)
    ensures requests != [] ==>
              Counts(Run(requests), Permitted(requests), Markers(requests), Last(requests) - NOTIFY_WINDOW_SECS)
  {
    if requests != [] {
      var front, now := Front(requests), Last(requests);
      QueueCounts(front);
      QueueInOrder(front);
      assert front != [] ==> Last(front) == requests[|requests| - 2] <= now;
      var latest := if front == [] then now else Last(front);
      RequestKeepsCount(Run(front), Permitted(front), Markers(front), latest - NOTIFY_WINDOW_SECS, now);
      PermittedSnoc(requests);
      MarkersSnoc(requests);
    }
  }

  lemma PermittedSnoc(requests: seq<real>)
    requires requests != []
    ensures Permitted(requests) ==
            if Permits(Run(Front(requests)), Last(requests)) then Permitted(Front(requests)) + [Last(requests)]
            else Permitted(Front(requests))
  {
  }

  lemma RunSnoc(requests: seq<real>)
    requires requests != []
    ensures Run(requests) == After(Run(Front(requests)), Last(requests))
  {
  }

  lemma MarkersSnoc(requests: seq<real>)
    requires requests != []
    ensures Markers(requests) ==
            if LeavesMarker(Run(Front(requests)), Last(requests)) then Markers(Front(requests)) + [Last(requests)]
            else Markers(Front(requests))
  {
  }

  /** How many of the times lie in the 30 s up to now. */
  function Recent(times: seq<real>, now: real): nat {
    |Filter(times, From(now - NOTIFY_WINDOW_SECS))|
  }

  lemma QueueRecount(requests: seq<real>)
    requires requests != [] && InOrder(requests)
    ensures var front, now := Front(requests), Last(requests);
            |Prune(Run(front), now - NOTIFY_WINDOW_SECS)| == Recent(Permitted(front), now) + Recent(Markers(front), now)
  {
    var front, now := Front(requests), Last(requests);
    QueueCounts(front);
    QueueInOrder(front);
    if front != [] {
      assert Last(front) == requests[|requests| - 2] <= now;
      PruneKeepsCount(Run(front), Permitted(front), Markers(front), Last(front) - NOTIFY_WINDOW_SECS,
                      now - NOTIFY_WINDOW_SECS);
    }
  }

  /** What decides a request, read off the history alone: the popups and the markers of the last 30 s must together be
      fewer than three. */
  lemma PermitsIff(requests: seq<real>)
    requires requests != [] && InOrder(requests)
    ensures var front, now := Front(requests), Last(requests);
            Permits(Run(front), now) <==>
            Recent(Permitted(front), now) + Recent(Markers(front), now) < NOTIFY_MAX_PER_WINDOW
  {
    QueueRecount(requests);
  }

  /** So the limiter does what it is for, refusing a request just when three popups were shown in the last 30 s, except
      exactly when fewer were shown and markers fill the rest. */
  lemma HeedsBudgetIff(requests: seq<real>)
    requires requests != [] && InOrder(requests)
    ensures var front, now := Front(requests), Last(requests);
            (Permits(Run(front), now) <==> Recent(Permitted(front), now) < NOTIFY_MAX_PER_WINDOW) <==>
            !(NOTIFY_MAX_PER_WINDOW - Recent(Markers(front), now) <= Recent(Permitted(front), now)
              < NOTIFY_MAX_PER_WINDOW)
  {
    PermitsIff(requests);
  }

  /** When a popup is permitted, at most three, itself included, were permitted in the last 30 s. */
  lemma PermittedWithinBudget(requests: seq<real>)
    requires requests != [] && InOrder(requests) && Permits(Run(Front(requests)), Last(requests))
    ensures Recent(Permitted(requests), Last(requests)) <= NOTIFY_MAX_PER_WINDOW
  {
    PermitsIff(requests);
    PermittedSnoc(requests);
    FilterSnoc(Permitted(Front(requests)), Last(requests), From(Last(requests) - NOTIFY_WINDOW_SECS));
  }

  function Between(lo: real, hi: real): real -> bool {
    (t: real) => lo <= t <= hi
  }

  lemma {:induction false} FilterShrinks(times: seq<real>, lo: real, hi: real, c: real)
    requires c <= lo
    ensures |Filter(times, Between(lo, hi))| <= |Filter(times, From(c))|
  {
    if times != [] {
      FilterShrinks(Front(times), lo, hi, c);
    }
  }

  /** A popup inside the interval [start, start + 30] is preceded by at most two others in it. */
  lemma PopupWithinInterval(requests: seq<real>, start: real)
    requires requests != [] && InOrder(requests) && Permits(Run(Front(requests)), Last(requests))
    requires start <= Last(requests) <= start + NOTIFY_WINDOW_SECS
    ensures |Filter(Permitted(requests), Between(start, start + NOTIFY_WINDOW_SECS))| <= NOTIFY_MAX_PER_WINDOW
  {
    PermittedWithinBudget(requests);
    FilterShrinks(Permitted(requests), start, start + NOTIFY_WINDOW_SECS, Last(requests) - NOTIFY_WINDOW_SECS);
  }

  lemma OutsideAddsNothing(times: seq<real>, now: real, inside: real -> bool)
    requires !inside(now)
    ensures |Filter(times + [now], inside)| == |Filter(times, inside)|
  {
    FilterSnoc(times, now, inside);
  }

  /** Every closed interval of 30 s contains at most three permitted popups. */
  lemma {:induction false} AtMostThreePerWindow(requests: seq<real>, start: real)
    requires InOrder(requests)
    ensures |Filter(Permitted(requests), Between(start, start + NOTIFY_WINDOW_SECS))| <= NOTIFY_MAX_PER_WINDOW
  {
    if requests != [] {
      var front, now := Front(requests), Last(requests);
      AtMostThreePerWindow(front, start);
      PermittedSnoc(requests);
      if Permits(Run(front), now) {
        if start <= now <= start + NOTIFY_WINDOW_SECS {
          PopupWithinInterval(requests, start);
        } else {
          OutsideAddsNothing(Permitted(front), now, Between(start, start + NOTIFY_WINDOW_SECS));
        }
      }
    }
  }

  // --------------------------------------------------- when it stops serving

  /** n requests, evenly spaced. */
  function Steady(start: real, period: real, n: nat): (requests: seq<real>)
    ensures |requests| == n
  {
    if n == 0 then []
    else
      var earlier := Steady(start, period, n - 1);
      earlier + [if earlier == [] then start else Last(earlier) + period]
  }

  lemma SteadySnoc(start: real, period: real, n: nat)
    requires 0 < n
    ensures var all := Steady(start, period, n);
            Front(all) == Steady(start, period, n - 1) && (1 < n ==> Last(all) == Last(Front(all)) + period)
  {
  }

  /** Consecutive entries of a queue, which has at most four, are at least the gap apart. */
  predicate SpacedBy(queue: seq<real>, gap: real) {
    && |queue| <= 4
    && (1 < |queue| ==> queue[0] + gap <= queue[1])
    && (2 < |queue| ==> queue[1] + gap <= queue[2])
    && (3 < |queue| ==> queue[2] + gap <= queue[3])
  }

  lemma SpacedEnd(queue: seq<real>, gap: real, k: nat)
    requires SpacedBy(queue, gap) && k <= |queue|
    ensures SpacedBy(queue[k..], gap)
    ensures k < |queue| ==> Last(queue[k..]) == Last(queue)
  {
  }

  lemma SpacedSnoc(queue: seq<real>, gap: real, now: real)
    requires |queue| < 4 && SpacedBy(queue, gap) && (queue != [] ==> Last(queue) + gap <= now)
    ensures SpacedBy(queue + [now], gap)
  {
  }

  /** A request that finds fewer than three entries, none of them old, is permitted. */
  lemma RoomLeft(requests: seq<real>, queue: seq<real>)
    requires requests != [] && Run(Front(requests)) == queue && |queue| < NOTIFY_MAX_PER_WINDOW
    requires queue != [] ==> Last(requests) - NOTIFY_WINDOW_SECS <= queue[0]
    ensures Run(requests) == queue + [Last(requests)]
    ensures Permitted(requests) == Permitted(Front(requests)) + [Last(requests)]
  {
    PruneNothing(queue, Last(requests) - NOTIFY_WINDOW_SECS);
    PermittedSnoc(requests);
  }

  /** Up to three requests, the later ones within 30 s of the first. */
  predicate InOneWindow(requests: seq<real>) {
    && |requests| <= 3
    && (1 < |requests| ==> requests[1] - NOTIFY_WINDOW_SECS <= requests[0])
    && (2 < |requests| ==> requests[2] - NOTIFY_WINDOW_SECS <= requests[0])
  }

  /** The first three requests are permitted, however close together they come. */
  lemma {:induction false} FirstThreePermitted(requests: seq<real>)
    requires InOneWindow(requests)
    ensures Run(requests) == requests && Permitted(requests) == requests
  {
    if requests != [] {
      FirstThreePermitted(Front(requests));
      RoomLeft(requests, Front(requests));
      assert requests == Front(requests) + [Last(requests)];
    }
  }

  /** Three entries will still be recent one period after the latest request. */
  predicate Saturated(queue: seq<real>, latest: real, period: real) {
    && 3 <= |queue| <= 4 && SpacedBy(queue, period) && Last(queue) <= latest
    && latest + period - NOTIFY_WINDOW_SECS <= queue[|queue| - 3]
  }

  /** What pruning leaves, with the marker of a refused request when there is room for it. */
  lemma RefusalSaturates(kept: seq<real>, now: real, period: real)
    requires 0.0 <= period && 3 <= |kept| <= 4 && SpacedBy(kept, period) && Last(kept) + period <= now
    requires now - NOTIFY_WINDOW_SECS <= kept[0]
    ensures Saturated(if |kept| <= NOTIFY_MAX_PER_WINDOW then kept + [now] else kept, now, period)
  {
    if |kept| <= NOTIFY_MAX_PER_WINDOW {
      SpacedSnoc(kept, period, now);
    }
  }

  /** One period later at most one entry has become old. */
  lemma PruneLeavesThree(queue: seq<real>, latest: real, period: real)
    requires 0.0 <= period && Saturated(queue, latest, period)
    ensures var cutoff := latest + period - NOTIFY_WINDOW_SECS;
            var kept := Prune(queue, cutoff);
            3 <= |kept| <= 4 && SpacedBy(kept, period) && Last(kept) <= latest && cutoff <= kept[0]
  {
    var k := PruneDrops(queue, latest + period - NOTIFY_WINDOW_SECS);
    assert k <= |queue| - 3;
    SpacedEnd(queue, period, k);
  }

  lemma SaturatedStep(queue: seq<real>, latest: real, period: real)
    requires 0.0 <= period && Saturated(queue, latest, period)
    ensures !Permits(queue, latest + period)
    ensures Saturated(After(queue, latest + period), latest + period, period)
  {
    var now := latest + period;
    PruneLeavesThree(queue, latest, period);
    RefusalSaturates(Prune(queue, now - NOTIFY_WINDOW_SECS), now, period);
  }

  /** At most three entries, so a request more than 10 s after the latest finds the oldest of three gone. */
  predicate Roomy(queue: seq<real>, latest: real, period: real) {
    1 <= |queue| <= 3 && SpacedBy(queue, period) && Last(queue) == latest
  }

  lemma PruneLeavesTwo(queue: seq<real>, latest: real, period: real)
    requires 10.0 < period && Roomy(queue, latest, period)
    ensures var kept := Prune(queue, latest + period - NOTIFY_WINDOW_SECS);
            |kept| <= 2 && SpacedBy(kept, period) && (kept != [] ==> Last(kept) == latest)
  {
    var k := PruneDrops(queue, latest + period - NOTIFY_WINDOW_SECS);
    SpacedEnd(queue, period, k);
  }

  lemma RoomyStep(queue: seq<real>, latest: real, period: real)
    requires 10.0 < period && Roomy(queue, latest, period)
    ensures Permits(queue, latest + period)
    ensures Roomy(After(queue, latest + period), latest + period, period)
  {
    PruneLeavesTwo(queue, latest, period);
    SpacedSnoc(Prune(queue, latest + period - NOTIFY_WINDOW_SECS), period, latest + period);
  }

  lemma FirstThreeSteady(start: real, period: real)
    requires 0.0 <= period <= 10.0
    ensures Permitted(Steady(start, period, 3)) == Steady(start, period, 3)
    ensures Saturated(Run(Steady(start, period, 3)), Last(Steady(start, period, 3)), period)
  {
    var three := Steady(start, period, 3);
    assert Steady(start, period, 1) == [start];
    assert Steady(start, period, 2) == [start, start + period];
    assert three == [start, start + period, start + period + period];
    FirstThreePermitted(three);
  }

  /** Markers are paid for like popups, so under evenly spaced requests, 10 s apart or less, the budget never reopens:
      the first three requests are permitted and no later one ever is. */
  lemma {:induction false} SteadyRequestsStarve(start: real, period: real, n: nat)
    requires 0.0 <= period <= 10.0 && 3 <= n
    ensures Permitted(Steady(start, period, n)) == Steady(start, period, 3)
    ensures Saturated(Run(Steady(start, period, n)), Last(Steady(start, period, n)), period)
  {
    if n == 3 {
      FirstThreeSteady(start, period);
    } else {
      SteadyRequestsStarve(start, period, n - 1);
      var front, all := Steady(start, period, n - 1), Steady(start, period, n);
      SteadySnoc(start, period, n);
      SaturatedStep(Run(front), Last(front), period);
      RunSnoc(all);
      PermittedSnoc(all);
    }
  }

  lemma FirstIsServed(requests: seq<real>, period: real)
    requires |requests| == 1
    ensures Permitted(requests) == requests && Roomy(Run(requests), Last(requests), period)
  {
    assert Front(requests) == [] && requests == [Last(requests)];
    PermittedSnoc(requests);
  }

  lemma AllPermittedSnoc(all: seq<real>)
    requires all != [] && Permitted(Front(all)) == Front(all) && Permits(Run(Front(all)), Last(all))
    ensures Permitted(all) == all
  {
    PermittedSnoc(all);
    FrontAndLast(all);
  }

  lemma StaysRoomy(all: seq<real>, queue: seq<real>, latest: real, period: real)
    requires all != [] && queue == Run(Front(all)) && Last(all) == latest + period
    requires 10.0 < period && Roomy(queue, latest, period)
    ensures Permits(queue, Last(all)) && Roomy(Run(all), Last(all), period)
  {
    RoomyStep(queue, latest, period);
    RunSnoc(all);
  }

  lemma {:induction false} SlowRequestsAreServed(start: real, period: real, n: nat)
    requires 10.0 < period && 0 < n
    ensures Permitted(Steady(start, period, n)) == Steady(start, period, n)
    ensures Roomy(Run(Steady(start, period, n)), Last(Steady(start, period, n)), period)
  {
    if n == 1 {
      FirstIsServed(Steady(start, period, n), period);
    } else {
      SlowRequestsAreServed(start, period, n - 1);
      SteadySnoc(start, period, n);
      var front, all := Steady(start, period, n - 1), Steady(start, period, n);
      StaysRoomy(all, Run(front), Last(front), period);
      AllPermittedSnoc(all);
    }
  }

  lemma {:induction false} SteadyInOrder(start: real, period: real, n: nat)
    requires 0.0 <= period
    ensures InOrder(Steady(start, period, n))
  {
    if 1 < n {
      SteadyInOrder(start, period, n - 1);
      SteadySnoc(start, period, n);
    }
  }

  lemma NoneRecent(times: seq<real>, now: real)
    requires InOrder(times) && (times != [] ==> Last(times) < now - NOTIFY_WINDOW_SECS)
    ensures Recent(times, now) == 0
  {
    forall t | t in times
      ensures t < now - NOTIFY_WINDOW_SECS
    {
      var i :| 0 <= i < |times| && times[i] == t;
    }
    FilterNone(times, From(now - NOTIFY_WINDOW_SECS));
  }

  /** For instance, once the first three have left the last 30 s, requests are refused with no popup shown in them at
      all. */
  lemma RefusedWithNothingShown(start: real, period: real, n: nat, requests: seq<real>, now: real)
    requires 0.0 <= period <= 10.0 && 3 <= n && requests == Steady(start, period, n)
    requires now == Last(requests) + period && requests[2] < now - NOTIFY_WINDOW_SECS
    ensures !Permits(Run(requests), now) && Recent(Permitted(requests), now) == 0
  {
    SteadyRequestsStarve(start, period, n);
    SteadyBegins(start, period, n);
    SteadyInOrder(start, period, 3);
    SaturatedStep(Run(requests), Last(requests), period);
    NoneRecent(Permitted(requests), now);
  }

  /** A longer steady demand begins with the shorter one. */
  lemma {:induction false} SteadyBegins(start: real, period: real, n: nat)
    requires 3 <= n
    ensures Last(Steady(start, period, 3)) == Steady(start, period, n)[2]
  {
    if 3 < n {
      SteadyBegins(start, period, n - 1);
      SteadySnoc(start, period, n);
    }
  }

  /** Steady demand is served in full exactly when its period exceeds 10 s, the window divided by the limit. Otherwise
      only the first three requests are, however long it goes on. */
  lemma SteadyDemandServedIff(start: real, period: real, n: nat)
    requires 0.0 <= period && 4 <= n
    ensures Permitted(Steady(start, period, n)) == Steady(start, period, n) <==> 10.0 < period
    ensures period <= 10.0 ==> Permitted(Steady(start, period, n)) == Steady(start, period, 3)
  {
    if 10.0 < period {
      SlowRequestsAreServed(start, period, n);
    } else {
      SteadyRequestsStarve(start, period, n);
    }
  }
}
