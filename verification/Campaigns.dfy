/** Attack campaigns: an online clusterer of reported actions that races a background finaliser. */
module Campaigns {
  import opened Collections
  import opened GapSplit

  const CAMPAIGN_GAP_SECS: real := 120.0
  const CAMPAIGN_MAX: nat := 200

  /** One reported action. */
  datatype Member = Member(
    ts: real,
    pid: int,
    name: string,
    reason: string,
    terminated: bool,
    quarantined: bool,
    incidentFile: string)

  datatype Campaign = Campaign(
    startTs: real,
    lastTs: real,
    filename: int,
    pids: set<int>,
    members: seq<Member>,
    finalized: bool,
    finalizedTs: real)

  function StampOf(): Member -> real {
    (m: Member) => m.ts
  }

  /** The report's file name is made from the start time, to the second. */
  function FileStamp(ts: real): int {
    ts.Floor
  }

  // -------------------------------------------------------- online clusterer

  function NewCampaign(m: Member): Campaign {
    Campaign(m.ts, m.ts, FileStamp(m.ts), {}, [], false, 0.0)
  }

  function AddMember(c: Campaign, m: Member): Campaign {
    c.(lastTs := Max(c.lastTs, m.ts), pids := c.pids + {m.pid}, members := c.members + [m])
  }

  /** The action belongs to the campaign that is still open. */
  predicate Joins(cs: seq<Campaign>, m: Member) {
    cs != [] && !Last(cs).finalized && m.ts - Last(cs).lastTs <= CAMPAIGN_GAP_SECS
  }

  function Join(cs: seq<Campaign>, m: Member): seq<Campaign> {
    if Joins(cs, m) then Front(cs) + [AddMember(Last(cs), m)]
    else cs + [AddMember(NewCampaign(m), m)]
  }

  predicate DueAt(c: Campaign, now: real, force: bool) {
    !c.finalized && (force || now - c.lastTs > CAMPAIGN_GAP_SECS)
  }

  function FinalizeOne(c: Campaign, now: real, force: bool): Campaign {
    if DueAt(c, now, force) then c.(finalized := true, finalizedTs := now) else c
  }

  function FinalizeAll(cs: seq<Campaign>, now: real, force: bool): seq<Campaign> {
    if cs == [] then [] else FinalizeAll(Front(cs), now, force) + [FinalizeOne(Last(cs), now, force)]
  }

  /** Snapshots of the campaigns that a poll finalises, in order; these are handed to the report writer. */
  function Pending(cs: seq<Campaign>, now: real, force: bool): seq<Campaign> {
    if cs == [] then []
    else Pending(Front(cs), now, force) +
         if DueAt(Last(cs), now, force) then [FinalizeOne(Last(cs), now, force)] else []
  }

  // ------------------------------------------------------------------- runs

  /** `tracked` is the reporter's list, `dropped` what its length limit has cut off, `written` every snapshot handed
      to the report writer so far. */
  datatype State = State(dropped: seq<Campaign>, tracked: seq<Campaign>, written: seq<Campaign>)

  datatype Event = Report(m: Member) | Poll(now: real, force: bool)

  function All(s: State): seq<Campaign> {
    s.dropped + s.tracked
  }

  function Step(s: State, e: Event): State {
    match e
    case Report(m) =>
      var cs := Join(s.tracked, m);
      var kept := Tail(cs, CAMPAIGN_MAX);
      s.(dropped := s.dropped + cs[..|cs| - |kept|], tracked := kept)
    case Poll(now, force) =>
      s.(tracked := FinalizeAll(s.tracked, now, force), written := s.written + Pending(s.tracked, now, force))
  }

  function Run(es: seq<Event>): State {
    if es == [] then State([], [], []) else Step(Run(Front(es)), Last(es))
  }

  function Reports(es: seq<Event>): seq<Member> {
    if es == [] then []
    else Reports(Front(es)) + if Last(es).Report? then [Last(es).m] else []
  }

  /** The action would have joined the last campaign, had that not been finalised already. */
  predicate Late(s: State, m: Member) {
    && s.tracked != [] && Last(s.tracked).finalized
    && m.ts - Last(s.tracked).lastTs <= CAMPAIGN_GAP_SECS
  }

  predicate LateSomewhere(es: seq<Event>) {
    && es != []
    && (LateSomewhere(Front(es)) || (Last(es).Report? && Late(Run(Front(es)), Last(es).m)))
  }

  // ---------------------------------------------------- shape of the state

  predicate Bounded(s: State) {
    |s.tracked| <= CAMPAIGN_MAX && (s.dropped != [] ==> |s.tracked| == CAMPAIGN_MAX)
  }

  lemma JoinBehindPrefix(dropped: seq<Campaign>, tracked: seq<Campaign>, m: Member)
    requires dropped != [] ==> tracked != []
    ensures Join(dropped + tracked, m) == dropped + Join(tracked, m)
    ensures Joins(dropped + tracked, m) <==> Joins(tracked, m)
  {
    if tracked != [] {
      assert Front(dropped + tracked) == dropped + Front(tracked);
    }
  }

  lemma CutAndKept(dropped: seq<Campaign>, cs: seq<Campaign>)
    ensures var kept := Tail(cs, CAMPAIGN_MAX);
            (dropped + cs[..|cs| - |kept|]) + kept == dropped + cs
  {
    var kept := Tail(cs, CAMPAIGN_MAX);
    assert cs == cs[..|cs| - |kept|] + kept;
  }

  lemma ReportOnAll(s: State, m: Member)
    requires Bounded(s)
    ensures All(Step(s, Report(m))) == Join(All(s), m)
    ensures Bounded(Step(s, Report(m)))
    ensures Joins(s.tracked, m) <==> Joins(All(s), m)
  {
    JoinBehindPrefix(s.dropped, s.tracked, m);
    CutAndKept(s.dropped, Join(s.tracked, m));
  }

  lemma {:induction false} FinalizeKeepsLength(cs: seq<Campaign>, now: real, force: bool)
    ensures |FinalizeAll(cs, now, force)| == |cs|
    ensures forall i :: 0 <= i < |cs| ==> FinalizeAll(cs, now, force)[i] == FinalizeOne(cs[i], now, force)
  {
    if cs != [] {
      FinalizeKeepsLength(Front(cs), now, force);
    }
  }

  lemma {:induction false} RunIsBounded(es: seq<Event>)
    ensures Bounded(Run(es))
  {
    if es != [] {
      RunIsBounded(Front(es));
      match Last(es)
      case Report(m) => ReportOnAll(Run(Front(es)), m);
      case Poll(now, force) => FinalizeKeepsLength(Run(Front(es)).tracked, now, force);
    }
  }

  /** The tracked list is always the last 200 of all campaigns ever formed. */
  lemma TrackedAreTheLatest(es: seq<Event>)
    ensures Run(es).tracked == Tail(All(Run(es)), 200)
  {
    RunIsBounded(es);
  }

  function Groups(cs: seq<Campaign>): seq<seq<Member>> {
    if cs == [] then [] else Groups(Front(cs)) + [Last(cs).members]
  }

  lemma {:induction false} GroupsAt(cs: seq<Campaign>)
    ensures |Groups(cs)| == |cs| && forall i :: 0 <= i < |cs| ==> Groups(cs)[i] == cs[i].members
  {
    if cs != [] {
      GroupsAt(Front(cs));
    }
  }

  lemma JoinGroups(cs: seq<Campaign>, m: Member)
    ensures Groups(Join(cs, m)) == if Joins(cs, m) then Extend(Groups(cs), m) else Groups(cs) + [[m]]
  {
    assert Front(Join(cs, m)) == if Joins(cs, m) then Front(cs) else cs;
    assert [] + [m] == [m];
  }

  /** The effect of an event on the grouping of the actions. */
  function NextGroups(cs: seq<Campaign>, e: Event): seq<seq<Member>> {
    if e.Poll? then Groups(cs)
    else if Joins(cs, e.m) then Extend(Groups(cs), e.m)
    else Groups(cs) + [[e.m]]
  }

  lemma StepGroups(s: State, e: Event)
    requires Bounded(s)
    ensures Groups(All(Step(s, e))) == NextGroups(All(s), e)
  {
    match e
    case Report(m) =>
      ReportOnAll(s, m);
      JoinGroups(All(s), m);
    case Poll(now, force) =>
      FinalizeKeepsLength(s.tracked, now, force);
      GroupsAt(All(s));
      GroupsAt(All(Step(s, e)));
  }

  lemma FlattenGrows(groups: seq<seq<Member>>, m: Member)
    ensures Flatten(groups + [[m]]) == Flatten(groups) + [m]
    ensures groups != [] ==> Flatten(Extend(groups, m)) == Flatten(groups) + [m]
  {
    assert Front(groups + [[m]]) == groups;
    if groups != [] {
      assert Front(Extend(groups, m)) == Front(groups);
      assert Flatten(groups) + [m] == Flatten(Front(groups)) + (Last(groups) + [m]);
    }
  }

  /** Every action ever reported is in exactly one campaign, in order, whatever the finaliser did in between. */
  lemma {:induction false} EveryActionInOneCampaign(es: seq<Event>)
    ensures Flatten(Groups(All(Run(es)))) == Reports(es)
  {
    if es != [] {
      EveryActionInOneCampaign(Front(es));
      RunIsBounded(Front(es));
      StepGroups(Run(Front(es)), Last(es));
      if Last(es).Report? {
        FlattenGrows(Groups(All(Run(Front(es)))), Last(es).m);
      }
    }
  }

  function MaxTs(ms: seq<Member>): real
    requires ms != []
  {
    if |ms| == 1 then ms[0].ts else Max(MaxTs(Front(ms)), Last(ms).ts)
  }

  function PidsOf(ms: seq<Member>): set<int> {
    set m | m in ms :: m.pid
  }

  /** A campaign's summary fields describe its members. */
  predicate Summarises(c: Campaign) {
    && c.members != []
    && c.startTs == c.members[0].ts && c.filename == FileStamp(c.startTs)
    && c.lastTs == MaxTs(c.members)
    && c.pids == PidsOf(c.members)
  }

  lemma AddMemberSummarises(c: Campaign, m: Member)
    requires Summarises(c) || c == NewCampaign(m)
    ensures Summarises(AddMember(c, m))
  {
    var c' := AddMember(c, m);
    assert Front(c'.members) == c.members;
    assert PidsOf(c'.members) == PidsOf(c.members) + {m.pid};
  }

  lemma JoinSummarises(cs: seq<Campaign>, m: Member)
    requires forall c :: c in cs ==> Summarises(c)
    ensures forall c :: c in Join(cs, m) ==> Summarises(c)
  {
    AddMemberSummarises(NewCampaign(m), m);
    if Joins(cs, m) {
      assert Last(cs) in cs;
      AddMemberSummarises(Last(cs), m);
    }
  }

  lemma FinalizeSummarises(cs: seq<Campaign>, now: real, force: bool)
    requires forall c :: c in cs ==> Summarises(c)
    ensures forall c :: c in FinalizeAll(cs, now, force) ==> Summarises(c)
  {
    FinalizeKeepsLength(cs, now, force);
    forall c | c in FinalizeAll(cs, now, force)
      ensures Summarises(c)
    {
      var i :| 0 <= i < |cs| && FinalizeAll(cs, now, force)[i] == c;
      assert cs[i] in cs;
    }
  }

  lemma {:induction false} CampaignsSummariseTheirMembers(es: seq<Event>)
    ensures forall c :: c in All(Run(es)) ==> Summarises(c)
  {
    if es != [] {
      var s := Run(Front(es));
      CampaignsSummariseTheirMembers(Front(es));
      RunIsBounded(Front(es));
      match Last(es)
      case Report(m) =>
        ReportOnAll(s, m);
        JoinSummarises(All(s), m);
      case Poll(now, force) => FinalizeSummarises(s.tracked, now, force);
    }
  }

  // ------------------------------------------- online equals offline, when

  /** The offline clustering of a list of actions: a new group whenever an action comes more than the gap after the
      latest one of the group before. */
  function RunSplit(ms: seq<Member>): (groups: seq<seq<Member>>)
    ensures forall g :: 0 <= g < |groups| ==> groups[g] != []
    ensures groups == [] <==> ms == []
  {
    if ms == [] then []
    else
      var groups := RunSplit(Front(ms));
      if groups != [] && Last(ms).ts - MaxTs(Last(groups)) <= CAMPAIGN_GAP_SECS then Extend(groups, Last(ms))
      else groups + [[Last(ms)]]
  }

  lemma LastOfAll(es: seq<Event>)
    ensures var all := All(Run(es));
            all != [] ==> Groups(all) != [] && Last(Groups(all)) == Last(all).members && Last(all).members != []
                          && Last(all).lastTs == MaxTs(Last(Groups(all)))
  {
    CampaignsSummariseTheirMembers(es);
    GroupsAt(All(Run(es)));
    if All(Run(es)) != [] {
      assert Last(All(Run(es))) in All(Run(es));
    }
  }

  /** What one more action does to the offline clustering. */
  function SplitNext(groups: seq<seq<Member>>, m: Member): seq<seq<Member>>
    requires groups != [] ==> Last(groups) != []
  {
    if groups != [] && m.ts - MaxTs(Last(groups)) <= CAMPAIGN_GAP_SECS then Extend(groups, m) else groups + [[m]]
  }

  lemma RunSplitSnoc(ms: seq<Member>, m: Member)
    ensures RunSplit(ms + [m]) == SplitNext(RunSplit(ms), m)
  {
    assert Front(ms + [m]) == ms;
  }

  lemma ReportsSnoc(es: seq<Event>)
    requires es != []
    ensures Reports(es) == if Last(es).Report? then Reports(Front(es)) + [Last(es).m] else Reports(Front(es))
  {
  }

  lemma ReportsNext(es: seq<Event>)
    requires es != []
    ensures Last(es).Report? ==> RunSplit(Reports(es)) == SplitNext(RunSplit(Reports(Front(es))), Last(es).m)
    ensures Last(es).Poll? ==> RunSplit(Reports(es)) == RunSplit(Reports(Front(es)))
  {
    ReportsSnoc(es);
    if Last(es).Report? {
      RunSplitSnoc(Reports(Front(es)), Last(es).m);
    }
  }

  /** An open last campaign and the last offline group make the same decision; a closed one does when the action comes
      after the gap anyway. */
  lemma SameDecision(cs: seq<Campaign>, groups: seq<seq<Member>>, m: Member)
    requires groups == Groups(cs) && (cs == [] <==> groups == [])
    requires cs != [] ==> Last(groups) != [] && Last(cs).lastTs == MaxTs(Last(groups))
    requires cs != [] && Last(cs).finalized ==> CAMPAIGN_GAP_SECS < m.ts - Last(cs).lastTs
    ensures NextGroups(cs, Report(m)) == SplitNext(groups, m)
  {
  }

  lemma LastTracked(s: State)
    requires Bounded(s)
    ensures All(s) == [] <==> s.tracked == []
    ensures s.tracked != [] ==> Last(All(s)) == Last(s.tracked)
  {
  }

  lemma AgreesAfterReport(es: seq<Event>, m: Member)
    requires Groups(All(Run(es))) == RunSplit(Reports(es)) && !Late(Run(es), m)
    ensures NextGroups(All(Run(es)), Report(m)) == SplitNext(RunSplit(Reports(es)), m)
  {
    RunIsBounded(es);
    LastTracked(Run(es));
    LastOfAll(es);
    GroupsAt(All(Run(es)));
    SameDecision(All(Run(es)), RunSplit(Reports(es)), m);
  }

  lemma {:induction false} AgreeUnlessLate(es: seq<Event>)
    requires !LateSomewhere(es)
    ensures Groups(All(Run(es))) == RunSplit(Reports(es))
  {
    if es != [] {
      var front, e := Front(es), Last(es);
      AgreeUnlessLate(front);
      RunIsBounded(front);
      StepGroups(Run(front), e);
      ReportsNext(es);
      if e.Report? {
        AgreesAfterReport(front, e.m);
      }
    }
  }

  /** Once behind, the offline clustering never catches up: it has fewer groups, and its last one reaches further. */
  ghost predicate Behind(online: seq<seq<Member>>, offline: seq<seq<Member>>) {
    && |offline| < |online| && offline != [] && Last(online) != [] && Last(offline) != []
    && MaxTs(Last(online)) <= MaxTs(Last(offline))
  }

  lemma MaxTsSnoc(ms: seq<Member>, m: Member)
    ensures MaxTs(ms + [m]) == if ms == [] then m.ts else Max(MaxTs(ms), m.ts)
  {
    assert Front(ms + [m]) == ms;
  }

  lemma StaysBehind(online: seq<seq<Member>>, offline: seq<seq<Member>>, m: Member, joins: bool)
    requires Behind(online, offline)
    requires joins ==> m.ts - MaxTs(Last(online)) <= CAMPAIGN_GAP_SECS
    ensures Behind(if joins then Extend(online, m) else online + [[m]], SplitNext(offline, m))
  {
    MaxTsSnoc(Last(online), m);
    MaxTsSnoc(Last(offline), m);
    MaxTsSnoc([], m);
  }

  lemma FallsBehind(groups: seq<seq<Member>>, m: Member)
    requires groups != [] && Last(groups) != []
    requires m.ts - MaxTs(Last(groups)) <= CAMPAIGN_GAP_SECS
    ensures Behind(groups + [[m]], SplitNext(groups, m))
  {
    MaxTsSnoc(Last(groups), m);
    MaxTsSnoc([], m);
  }

  lemma {:induction false} BehindOnceLate(es: seq<Event>)
    requires LateSomewhere(es)
    ensures Behind(Groups(All(Run(es))), RunSplit(Reports(es)))
  {
    var front, s := Front(es), Run(Front(es));
    RunIsBounded(front);
    LastOfAll(front);
    StepGroups(s, Last(es));
    ReportsNext(es);
    if LateSomewhere(front) {
      BehindOnceLate(front);
      if Last(es).Report? {
        StaysBehind(Groups(All(s)), RunSplit(Reports(front)), Last(es).m, Joins(All(s), Last(es).m));
      }
    } else {
      AgreeUnlessLate(front);
      FallsBehind(Groups(All(s)), Last(es).m);
    }
  }

  /** For every interleaving of actions and polls, forced or not, with any timestamps at all: the campaigns formed
      are the offline clustering of the actions if and only if no action ever came late. */
  lemma OnlineEqualsOfflineIff(es: seq<Event>)
    ensures Groups(All(Run(es))) == RunSplit(Reports(es)) <==> !LateSomewhere(es)
  {
    if LateSomewhere(es) {
      BehindOnceLate(es);
    } else {
      AgreeUnlessLate(es);
    }
  }

  lemma JoinsNothing(cs: seq<Campaign>, m: Member)
    requires cs == []
    ensures Join(cs, m) == [AddMember(NewCampaign(m), m)]
  {
  }

  lemma NothingCut(s: State, m: Member, cs: seq<Campaign>)
    requires s.dropped == [] && Join(s.tracked, m) == cs && |cs| == 1
    ensures Step(s, Report(m)).dropped == [] && Step(s, Report(m)).tracked == cs
  {
  }

  lemma NothingYet(es: seq<Event>)
    requires es == []
    ensures Run(es).dropped == [] && Run(es).tracked == []
  {
  }

  lemma RunStep(es: seq<Event>, s: State, e: Event)
    requires es != [] && s == Run(Front(es)) && e == Last(es)
    ensures Run(es) == Step(s, e)
  {
  }

  lemma FirstReportOpens(es: seq<Event>, m: Member)
    requires |es| == 1 && es[0] == Report(m)
    ensures Run(es).dropped == [] && Run(es).tracked == [AddMember(NewCampaign(m), m)]
  {
    var s := Run(Front(es));
    NothingYet(Front(es));
    RunStep(es, s, Report(m));
    JoinsNothing(s.tracked, m);
    NothingCut(s, m, [AddMember(NewCampaign(m), m)]);
  }

  lemma OneReport(es: seq<Event>, m: Member)
    requires |es| == 1 && es[0] == Report(m)
    ensures Reports(es) == [m]
  {
    assert Front(es) == [];
    assert Reports(es) == [] + [m];
  }

  lemma SplitOfOne(ms: seq<Member>)
    requires |ms| == 1
    ensures RunSplit(ms) == [ms]
  {
    assert Front(ms) == [] && [Last(ms)] == ms;
  }

  lemma SplitOfTwo(ms: seq<Member>)
    requires |ms| == 2 && ms[1].ts - ms[0].ts <= CAMPAIGN_GAP_SECS
    ensures RunSplit(ms) == [ms]
  {
    var one := Front(ms);
    SplitOfOne(one);
    assert one + [ms[1]] == ms;
    RunSplitSnoc(one, ms[1]);
    assert Extend([one], ms[1]) == [ms];
  }

  lemma PollCloses(es: seq<Event>, now: real)
    requires es != [] && Last(es) == Poll(now, false)
    requires |Run(Front(es)).tracked| == 1 && DueAt(Run(Front(es)).tracked[0], now, false)
    ensures var s, s' := Run(Front(es)), Run(es);
            && s'.dropped == s.dropped && s'.tracked == [s.tracked[0].(finalized := true, finalizedTs := now)]
  {
    FinalizeKeepsLength(Run(Front(es)).tracked, now, false);
  }

  /** An action can come late. It is stamped when the response is made and filed only after its incident report has
      been written, and a poll in between can close the campaign it belongs to: its group is then split in two. */
  lemma ActionCanBeLate(es: seq<Event>, a: Member, b: Member)
    requires a.ts == 0.0 && b.ts == 119.0
    requires es == [Report(a), Poll(121.0, false), Report(b)]
    ensures LateSomewhere(es)
    ensures RunSplit(Reports(es)) == [[a, b]] && Groups(All(Run(es))) != [[a, b]]
  {
    var two := Front(es);
    var one := Front(two);
    FirstReportOpens(one, a);
    PollCloses(two, 121.0);
    OneReport(one, a);
    assert Reports(es) == Reports(one) + [b] == [a, b];
    SplitOfTwo([a, b]);
    OnlineEqualsOfflineIff(es);
  }

  // -------------------------------------- online equals maximal runs, when

  predicate CloseBehind(ms: seq<Member>, m: Member) {
    ms != [] && m.ts - Last(ms).ts <= CAMPAIGN_GAP_SECS
  }

  /** The action is filed differently from what its distance to the action before it (the last of `ms`) calls for: it is
      close behind, but the campaign has been finalised; or it comes after a gap, but an action before it was stamped
      out of order and late enough to bridge the gap. */
  predicate Misfiled(s: State, ms: seq<Member>, m: Member) {
    && ms != [] && s.tracked != []
    && if Last(s.tracked).finalized then CloseBehind(ms, m)
       else !CloseBehind(ms, m) && m.ts - Last(s.tracked).lastTs <= CAMPAIGN_GAP_SECS
  }

  predicate MisfiledSomewhere(es: seq<Event>) {
    && es != []
    && (|| MisfiledSomewhere(Front(es))
        || (Last(es).Report? && Misfiled(Run(Front(es)), Reports(Front(es)), Last(es).m)))
  }

  /** Add an action to the last group or open a new one. */
  function Grow(groups: seq<seq<Member>>, m: Member, joins: bool): seq<seq<Member>>
    requires joins ==> groups != []
  {
    if joins then Extend(groups, m) else groups + [[m]]
  }

  /** Two groupings that have grown by one action are the same only if they were before and decided alike. */
  lemma GrowIsInjective(a: seq<seq<Member>>, b: seq<seq<Member>>, m: Member, joinsA: bool, joinsB: bool)
    requires (joinsA ==> a != []) && (joinsB ==> b != [])
    requires (a != [] ==> Last(a) != []) && (b != [] ==> Last(b) != [])
    ensures Grow(a, m, joinsA) == Grow(b, m, joinsB) <==> a == b && joinsA == joinsB
  {
    var a', b' := Grow(a, m, joinsA), Grow(b, m, joinsB);
    if a' == b' {
      GrownLast(a, m, joinsA);
      GrownLast(b, m, joinsB);
    }
  }

  /** What a grouping was can be read off what it has become. */
  lemma GrownLast(groups: seq<seq<Member>>, m: Member, joins: bool)
    requires joins ==> groups != []
    requires groups != [] ==> Last(groups) != []
    ensures var grown := Grow(groups, m, joins);
            && grown != [] && Last(grown) != []
            && (joins <==> 1 < |Last(grown)|)
            && groups == if joins then Front(grown) + [Front(Last(grown))] else Front(grown)
  {
    var grown := Grow(groups, m, joins);
    if joins {
      assert Front(Last(groups) + [m]) == Last(groups);
      assert groups == Front(groups) + [Last(groups)];
    }
  }

  lemma {:induction false} MaxTsBounds(ms: seq<Member>)
    requires ms != []
    ensures Last(ms).ts <= MaxTs(ms)
  {
  }

  /** The latest action is the last member of the last campaign. */
  lemma LastReportIsLastMember(es: seq<Event>)
    ensures var all := All(Run(es));
            && (all == [] <==> Reports(es) == [])
            && (all != [] ==> Last(all).members != [] && Last(Last(all).members) == Last(Reports(es))
                              && Last(Reports(es)).ts <= Last(all).lastTs)
  {
    var all := All(Run(es));
    EveryActionInOneCampaign(es);
    LastOfAll(es);
    if all != [] {
      LastOfFlatten(Groups(all));
      MaxTsBounds(Last(all).members);
    }
  }

  lemma MisfiledIffDecidedDifferently(es: seq<Event>, m: Member)
    ensures Misfiled(Run(es), Reports(es), m) <==> Joins(All(Run(es)), m) != CloseBehind(Reports(es), m)
  {
    RunIsBounded(es);
    LastTracked(Run(es));
    LastReportIsLastMember(es);
  }

  lemma ReportGrowsBoth(es: seq<Event>, m: Member)
    ensures var all, ms := All(Run(es)), Reports(es);
            && (Joins(all, m) ==> Groups(all) != [])
            && (CloseBehind(ms, m) ==> SplitAtGaps(ms, StampOf(), CAMPAIGN_GAP_SECS) != [])
            && NextGroups(all, Report(m)) == Grow(Groups(all), m, Joins(all, m))
            && SplitAtGaps(ms + [m], StampOf(), CAMPAIGN_GAP_SECS) ==
               Grow(SplitAtGaps(ms, StampOf(), CAMPAIGN_GAP_SECS), m, CloseBehind(ms, m))
  {
    GroupsAt(All(Run(es)));
    SplitSnoc(Reports(es), m, StampOf(), CAMPAIGN_GAP_SECS);
  }

  /** One more action keeps the campaigns equal to the gap split exactly when they were equal and it is filed right. */
  lemma ReportKeepsSplitIff(es: seq<Event>, m: Member)
    ensures NextGroups(All(Run(es)), Report(m)) == SplitAtGaps(Reports(es) + [m], StampOf(), CAMPAIGN_GAP_SECS) <==>
            && Groups(All(Run(es))) == SplitAtGaps(Reports(es), StampOf(), CAMPAIGN_GAP_SECS)
            && !Misfiled(Run(es), Reports(es), m)
  {
    var groups, split := Groups(All(Run(es))), SplitAtGaps(Reports(es), StampOf(), CAMPAIGN_GAP_SECS);
    LastOfAll(es);
    GroupsAt(All(Run(es)));
    if Reports(es) != [] {
      SplitEndsWithLast(Reports(es), StampOf(), CAMPAIGN_GAP_SECS);
    }
    ReportGrowsBoth(es, m);
    MisfiledIffDecidedDifferently(es, m);
    GrowIsInjective(groups, split, m, Joins(All(Run(es)), m), CloseBehind(Reports(es), m));
  }

  lemma {:induction false} OnlineEqualsSplitIff(es: seq<Event>)
    ensures Groups(All(Run(es))) == SplitAtGaps(Reports(es), StampOf(), CAMPAIGN_GAP_SECS) <==> !MisfiledSomewhere(es)
  {
    if es != [] {
      var front, e := Front(es), Last(es);
      OnlineEqualsSplitIff(front);
      RunIsBounded(front);
      StepGroups(Run(front), e);
      ReportsSnoc(es);
      if e.Report? {
        ReportKeepsSplitIff(front, e.m);
      }
    }
  }

  /** For every interleaving of actions and polls, forced or not, with any timestamps at all: the campaigns are the
      maximal runs of actions whose consecutive stamps differ by at most 120 s if and only if no action was misfiled. */
  lemma CampaignsAreMaximalRunsIff(es: seq<Event>)
    ensures MaximalRuns(Groups(All(Run(es))), Reports(es), StampOf(), CAMPAIGN_GAP_SECS) <==> !MisfiledSomewhere(es)
  {
    SplitCharacterised(Groups(All(Run(es))), Reports(es), StampOf(), CAMPAIGN_GAP_SECS);
    OnlineEqualsSplitIff(es);
  }

  lemma JoinsTheFirst(s: State, a: Member, b: Member)
    requires s.dropped == [] && s.tracked == [AddMember(NewCampaign(a), a)] && b.ts <= a.ts
    ensures var s' := Step(s, Report(b));
            && s'.dropped == [] && |s'.tracked| == 1
            && !s'.tracked[0].finalized && s'.tracked[0].lastTs == a.ts
  {
    NothingCut(s, b, Join(s.tracked, b));
  }

  lemma SecondReportJoins(es: seq<Event>, a: Member, b: Member)
    requires |es| == 2 && es[0] == Report(a) && es[1] == Report(b) && b.ts <= a.ts
    ensures Run(es).dropped == [] && |Run(es).tracked| == 1
    ensures !Run(es).tracked[0].finalized && Run(es).tracked[0].lastTs == a.ts
  {
    var s := Run(Front(es));
    FirstReportOpens(Front(es), a);
    RunStep(es, s, Report(b));
    JoinsTheFirst(s, a, b);
  }

  lemma LastReport(es: seq<Event>)
    requires es != [] && Last(es).Report?
    ensures Reports(es) != [] && Last(Reports(es)) == Last(es).m
  {
  }

  lemma ThirdIsMisfiled(es: seq<Event>, a: Member, b: Member, c: Member)
    requires |es| == 3 && es[0] == Report(a) && es[1] == Report(b) && es[2] == Report(c)
    requires b.ts <= a.ts && c.ts - a.ts <= CAMPAIGN_GAP_SECS < c.ts - b.ts
    ensures MisfiledSomewhere(es)
  {
    SecondReportJoins(Front(es), a, b);
    LastReport(Front(es));
    assert Misfiled(Run(Front(es)), Reports(Front(es)), c);
  }

  lemma NeverLateWithoutPolls(es: seq<Event>)
    requires forall i :: 0 <= i < |es| ==> es[i].Report?
    ensures !LateSomewhere(es)
  {
    NeverLateUnderOrderlyClock(es);
  }

  /** Stamps out of order misfile an action without any poll: with stamps 100, 99 and 220 the third action comes 121 s
      after the second, but only 120 s after the first. */
  lemma DisorderMisfiles(es: seq<Event>, a: Member, b: Member, c: Member)
    requires a.ts == 100.0 && b.ts == 99.0 && c.ts == 220.0
    requires |es| == 3 && es[0] == Report(a) && es[1] == Report(b) && es[2] == Report(c)
    ensures !LateSomewhere(es)
    ensures !MaximalRuns(Groups(All(Run(es))), Reports(es), StampOf(), CAMPAIGN_GAP_SECS)
  {
    NeverLateWithoutPolls(es);
    ThirdIsMisfiled(es, a, b, c);
    CampaignsAreMaximalRunsIff(es);
  }

  // -------------------------------------------------- under an orderly clock

  predicate Unforced(es: seq<Event>) {
    forall i :: 0 <= i < |es| && es[i].Poll? ==> !es[i].force
  }

  /** No action is stamped earlier than a poll that preceded it. */
  predicate PollsPrecede(es: seq<Event>) {
    forall i, j :: 0 <= i < j < |es| && es[i].Poll? && es[j].Report? ==> es[i].now <= es[j].m.ts
  }

  predicate InOrder(ms: seq<Member>) {
    forall i, j :: 0 <= i < j < |ms| ==> ms[i].ts <= ms[j].ts
  }

  predicate FinalizedByPoll(es: seq<Event>, c: Campaign) {
    c.finalized ==>
      && c.finalizedTs - c.lastTs > CAMPAIGN_GAP_SECS
      && exists i :: 0 <= i < |es| && es[i].Poll? && es[i].now == c.finalizedTs
  }

  lemma FinalizedByEarlierPoll(es: seq<Event>, e: Event, c: Campaign)
    requires FinalizedByPoll(es, c)
    ensures FinalizedByPoll(es + [e], c)
  {
    if c.finalized {
      var i :| 0 <= i < |es| && es[i].Poll? && es[i].now == c.finalizedTs;
      assert (es + [e])[i] == es[i];
    }
  }

  /** Only the last campaign can be joined, and right after an action it is open. */
  lemma OpenAfterReport(s: State, m: Member)
    ensures var tracked := Step(s, Report(m)).tracked;
            tracked != [] && !Last(tracked).finalized
  {
  }

  lemma LastAfterPoll(s: State, now: real, force: bool)
    ensures var tracked := Step(s, Poll(now, force)).tracked;
            && (tracked == [] <==> s.tracked == [])
            && (tracked != [] ==> Last(tracked) == FinalizeOne(Last(s.tracked), now, force))
  {
  }

  /** A campaign that an unforced poll has closed had been quiet by then. */
  ghost predicate LastQuiet(es: seq<Event>, s: State) {
    s.tracked != [] ==> FinalizedByPoll(es, Last(s.tracked))
  }

  lemma StepKeepsQuiet(es: seq<Event>, s: State, e: Event, s': State)
    requires LastQuiet(es, s) && (e.Poll? ==> !e.force) && s' == Step(s, e)
    ensures LastQuiet(es + [e], s')
  {
    match e
    case Report(m) => OpenAfterReport(s, m);
    case Poll(now, force) =>
      LastAfterPoll(s, now, force);
      if s.tracked != [] {
        FinalizedByEarlierPoll(es, e, Last(s.tracked));
        assert (es + [e])[|es|] == e;
      }
  }

  lemma {:induction false} LastIsQuiet(es: seq<Event>)
    requires Unforced(es)
    ensures LastQuiet(es, Run(es))
  {
    if es == [] {
      NothingYet(es);
    } else {
      LastIsQuiet(Front(es));
      RunStep(es, Run(Front(es)), Last(es));
      StepKeepsQuiet(Front(es), Run(Front(es)), Last(es), Run(es));
      assert es == Front(es) + [Last(es)];
    }
  }

  /** The finaliser can only close a campaign that no later action could have joined. */
  lemma {:induction false} NeverLateUnderOrderlyClock(es: seq<Event>)
    requires Unforced(es) && PollsPrecede(es)
    ensures !LateSomewhere(es)
  {
    if es != [] {
      var front, s := Front(es), Run(Front(es));
      NeverLateUnderOrderlyClock(front);
      LastIsQuiet(front);
      if Last(es).Report? && s.tracked != [] && Last(s.tracked).finalized {
        var c := Last(s.tracked);
        var i :| 0 <= i < |front| && front[i].Poll? && front[i].now == c.finalizedTs;
        assert es[i].now <= es[|es| - 1].m.ts;
      }
    }
  }

  lemma {:induction false} MaxIsLast(ms: seq<Member>)
    requires ms != [] && InOrder(ms)
    ensures MaxTs(ms) == Last(ms).ts
  {
    if |ms| > 1 {
      MaxIsLast(Front(ms));
    }
  }

  /** A group in order that ends with the latest action. */
  predicate OrderedUpTo(group: seq<Member>, latest: Member) {
    group != [] && InOrder(group) && Last(group) == latest
  }

  lemma OrderedGrows(group: seq<Member>, latest: Member, m: Member)
    requires OrderedUpTo(group, latest) && latest.ts <= m.ts
    ensures MaxTs(group) == latest.ts && OrderedUpTo(group + [m], m)
  {
    MaxIsLast(group);
    assert forall i :: 0 <= i < |group| - 1 ==> group[i].ts <= group[|group| - 1].ts;
  }

  /** On a group in order, the latest member decides what the greatest time decides. */
  lemma SameSplitNext(groups: seq<seq<Member>>, latest: Member, m: Member)
    requires groups != [] && OrderedUpTo(Last(groups), latest) && latest.ts <= m.ts
    ensures SplitNext(groups, m) ==
            if m.ts - latest.ts <= CAMPAIGN_GAP_SECS then Extend(groups, m) else groups + [[m]]
    ensures OrderedUpTo(Last(SplitNext(groups, m)), m)
  {
    OrderedGrows(Last(groups), latest, m);
  }

  lemma {:induction false} SplitsAgreeInOrder(ms: seq<Member>)
    requires InOrder(ms)
    ensures RunSplit(ms) == SplitAtGaps(ms, StampOf(), CAMPAIGN_GAP_SECS)
    ensures ms != [] ==> OrderedUpTo(Last(RunSplit(ms)), Last(ms))
  {
    if ms != [] {
      var front, m := Front(ms), Last(ms);
      assert ms == front + [m];
      SplitsAgreeInOrder(front);
      RunSplitSnoc(front, m);
      SplitSnoc(front, m, StampOf(), CAMPAIGN_GAP_SECS);
      if front != [] {
        SameSplitNext(RunSplit(front), Last(front), m);
      }
    }
  }

  /** With stamps taken from one nondecreasing clock and only unforced polls, the campaigns are exactly the maximal
      runs of actions whose consecutive stamps differ by at most 120 s, and the reporter tracks the last 200. */
  lemma CampaignsAreTheMaximalRuns(es: seq<Event>)
    requires Unforced(es) && PollsPrecede(es) && InOrder(Reports(es))
    ensures MaximalRuns(Groups(All(Run(es))), Reports(es), StampOf(), CAMPAIGN_GAP_SECS)
    ensures Groups(Run(es).tracked) == Tail(SplitAtGaps(Reports(es), StampOf(), CAMPAIGN_GAP_SECS), 200)
  {
    NeverLateUnderOrderlyClock(es);
    AgreeUnlessLate(es);
    SplitsAgreeInOrder(Reports(es));
    SplitIsMaximal(Reports(es), StampOf(), CAMPAIGN_GAP_SECS);
    TrackedAreTheLatest(es);
    GroupsOfTail(All(Run(es)), CAMPAIGN_MAX);
  }

  lemma GroupsOfTail(cs: seq<Campaign>, n: nat)
    ensures Groups(Tail(cs, n)) == Tail(Groups(cs), n)
  {
    GroupsAt(cs);
    GroupsAt(Tail(cs, n));
  }

  // ---------------------------------------------------------- final reports

  function IsFinal(): Campaign -> bool {
    (c: Campaign) => c.finalized
  }

  function IfSo<T>(condition: bool, x: T): seq<T> {
    if condition then [x] else []
  }

  /** The elements of `all` are those of a and b together. */
  predicate SplitsInto<T(==)>(all: seq<T>, a: seq<T>, b: seq<T>) {
    multiset(all) == multiset(a) + multiset(b)
  }

  lemma OneBecomesFinal(c: Campaign, now: real, force: bool)
    ensures var c' := FinalizeOne(c, now, force);
            SplitsInto(IfSo(c'.finalized, c'), IfSo(c.finalized, c), IfSo(DueAt(c, now, force), c'))
  {
  }

  lemma Regroup<T>(a: seq<T>, b: seq<T>, c: seq<T>, x: seq<T>, y: seq<T>, z: seq<T>)
    requires SplitsInto(a, b, c) && SplitsInto(x, y, z)
    ensures SplitsInto(a + x, b + y, c + z)
  {
  }

  lemma FinalSnoc(cs: seq<Campaign>, now: real, force: bool)
    requires cs != []
    ensures var front, c := Front(cs), Last(cs);
            var c' := FinalizeOne(c, now, force);
            && Filter(FinalizeAll(cs, now, force), IsFinal()) ==
               Filter(FinalizeAll(front, now, force), IsFinal()) + IfSo(c'.finalized, c')
            && Filter(cs, IsFinal()) == Filter(front, IsFinal()) + IfSo(c.finalized, c)
            && Pending(cs, now, force) == Pending(front, now, force) + IfSo(DueAt(c, now, force), c')
  {
    FilterSnoc(FinalizeAll(Front(cs), now, force), FinalizeOne(Last(cs), now, force), IsFinal());
  }

  lemma {:induction false} PendingBecomeFinal(cs: seq<Campaign>, now: real, force: bool)
    ensures SplitsInto(Filter(FinalizeAll(cs, now, force), IsFinal()), Filter(cs, IsFinal()), Pending(cs, now, force))
  {
    if cs != [] {
      var front, c := Front(cs), Last(cs);
      var c' := FinalizeOne(c, now, force);
      PendingBecomeFinal(front, now, force);
      OneBecomesFinal(c, now, force);
      FinalSnoc(cs, now, force);
      Regroup(Filter(FinalizeAll(front, now, force), IsFinal()), Filter(front, IsFinal()), Pending(front, now, force),
              IfSo(c'.finalized, c'), IfSo(c.finalized, c), IfSo(DueAt(c, now, force), c'));
    }
  }

  lemma FilterAppend(cs: seq<Campaign>, c: Campaign)
    requires !c.finalized
    ensures Filter(cs + [c], IsFinal()) == Filter(cs, IsFinal())
  {
    FilterSnoc(cs, c, IsFinal());
  }

  /** An action joins or opens a campaign that is not final, so the final ones stay as they are. */
  lemma ReportKeepsFinal(cs: seq<Campaign>, m: Member)
    ensures Filter(Join(cs, m), IsFinal()) == Filter(cs, IsFinal())
  {
    if Joins(cs, m) {
      FilterAppend(Front(cs), AddMember(Last(cs), m));
      FilterAppend(Front(cs), Last(cs));
      assert cs == Front(cs) + [Last(cs)];
    } else {
      FilterAppend(cs, AddMember(NewCampaign(m), m));
    }
  }

  /** What has been handed to the writer is the final campaigns, as they stand, each once. */
  predicate WrittenAreFinal(s: State) {
    multiset(s.written) == multiset(Filter(All(s), IsFinal()))
  }

  lemma PollWritesNewlyFinal(s: State, now: real, force: bool)
    requires WrittenAreFinal(s)
    ensures WrittenAreFinal(Step(s, Poll(now, force)))
  {
    PendingBecomeFinal(s.tracked, now, force);
    FilterConcat(s.dropped, s.tracked, IsFinal());
    FilterConcat(s.dropped, FinalizeAll(s.tracked, now, force), IsFinal());
  }

  /** In every run, what has been handed to the writer is exactly the finalised campaigns, each once and as it stands
      now: nothing is written twice, and no action joins a campaign after its report. */
  lemma {:induction false} WrittenOnceAndComplete(es: seq<Event>)
    ensures WrittenAreFinal(Run(es))
  {
    if es != [] {
      var s := Run(Front(es));
      WrittenOnceAndComplete(Front(es));
      RunIsBounded(Front(es));
      match Last(es)
      case Report(m) =>
        ReportOnAll(s, m);
        ReportKeepsFinal(All(s), m);
      case Poll(now, force) => PollWritesNewlyFinal(s, now, force);
    }
  }

  lemma FinalAreWritten(s: State, c: Campaign)
    requires WrittenAreFinal(s) && c in s.tracked && c.finalized
    ensures c in s.written
  {
    assert c in All(s);
    FilterMembers(All(s), IsFinal());
    assert c in multiset(Filter(All(s), IsFinal()));
    assert c in multiset(s.written);
  }

  /** What a poll leaves of each campaign: all but the two marks of finality, which it sets exactly on the open ones
      that have been quiet for more than 120 s, or on all of them when it is forced. */
  lemma PollMarksExactly(s: State, now: real, force: bool, i: nat)
    requires i < |s.tracked|
    ensures var s' := Step(s, Poll(now, force));
            && |s'.tracked| == |s.tracked| && s'.dropped == s.dropped
            && var c, c' := s.tracked[i], s'.tracked[i];
               && c'.members == c.members && c'.pids == c.pids && c'.filename == c.filename
               && c'.startTs == c.startTs && c'.lastTs == c.lastTs
               && (c'.finalized <==> c.finalized || force || 120.0 < now - c.lastTs)
               && c'.finalizedTs == if !c.finalized && (force || 120.0 < now - c.lastTs) then now else c.finalizedTs
  {
    FinalizeKeepsLength(s.tracked, now, force);
  }

  /** So after any poll no campaign is left open whose latest action is more than 120 s old, however many it has. */
  lemma PollLeavesNoQuietCampaign(es: seq<Event>, c: Campaign)
    requires es != [] && Last(es).Poll? && c in Run(es).tracked
    ensures c.members != [] && (c.finalized || Last(es).now - MaxTs(c.members) <= 120.0)
  {
    var s := Run(Front(es));
    CampaignsSummariseTheirMembers(es);
    FinalizeKeepsLength(s.tracked, Last(es).now, Last(es).force);
    var i :| 0 <= i < |Run(es).tracked| && Run(es).tracked[i] == c;
    PollMarksExactly(s, Last(es).now, Last(es).force, i);
    assert c in All(Run(es));
  }

  lemma ForceFinalizesAll(cs: seq<Campaign>, now: real)
    ensures forall c :: c in FinalizeAll(cs, now, true) ==> c.finalized
  {
    FinalizeKeepsLength(cs, now, true);
  }

  /** After a forced poll every tracked campaign has been written. */
  lemma CloseWritesEverythingTracked(es: seq<Event>)
    requires es != [] && Last(es).Poll? && Last(es).force
    ensures forall c :: c in Run(es).tracked ==> c.finalized && c in Run(es).written
  {
    var s := Run(es);
    WrittenOnceAndComplete(es);
    ForceFinalizesAll(Run(Front(es)).tracked, Last(es).now);
    forall c | c in s.tracked
      ensures c.finalized && c in s.written
    {
      FinalAreWritten(s, c);
    }
  }

  lemma {:induction false} LaterGroupsStartLater(groups: seq<seq<Member>>, ms: seq<Member>, i: nat, j: nat)
    requires MaximalRuns(groups, ms, StampOf(), CAMPAIGN_GAP_SECS) && InOrder(ms) && i < j < |groups|
    ensures groups[i] != [] && groups[j] != [] && groups[j][0].ts - groups[i][0].ts > CAMPAIGN_GAP_SECS
    decreases j
  {
    assert RunAt(groups, i, StampOf(), CAMPAIGN_GAP_SECS);
    GroupInOrder(groups, ms, j - 1);
    assert RunAt(groups, j, StampOf(), CAMPAIGN_GAP_SECS);
    if i < j - 1 {
      LaterGroupsStartLater(groups, ms, i, j - 1);
    }
  }

  lemma InOrderParts(a: seq<Member>, b: seq<Member>)
    requires InOrder(a + b)
    ensures InOrder(a) && InOrder(b)
  {
    assert forall k :: 0 <= k < |a| ==> (a + b)[k] == a[k];
    assert forall k :: 0 <= k < |b| ==> (a + b)[|a| + k] == b[k];
  }

  lemma {:induction false} GroupInOrder(groups: seq<seq<Member>>, ms: seq<Member>, i: nat)
    requires Flatten(groups) == ms && InOrder(ms) && i < |groups|
    ensures InOrder(groups[i])
  {
    var front := Flatten(Front(groups));
    InOrderParts(front, Last(groups));
    if i < |groups| - 1 {
      GroupInOrder(Front(groups), front, i);
    }
  }

  /** Under an orderly clock no two campaigns share a file name, so no final report overwrites another. */
  lemma ReportFilesAreDistinct(es: seq<Event>, i: nat, j: nat)
    requires Unforced(es) && PollsPrecede(es) && InOrder(Reports(es))
    requires i < j < |All(Run(es))|
    ensures All(Run(es))[i].filename != All(Run(es))[j].filename
  {
    var all := All(Run(es));
    CampaignsAreTheMaximalRuns(es);
    GroupsAt(all);
    LaterGroupsStartLater(Groups(all), Reports(es), i, j);
    CampaignsSummariseTheirMembers(es);
    assert all[i] in all && all[j] in all;
  }
}
