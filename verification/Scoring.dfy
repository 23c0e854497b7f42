/** The scoring window: eviction from the front, the correlation-gated score and per-PID removal. */
module Scoring {
  import opened Collections
  import opened Signals

  const THRESHOLD_LOW := 30
  const THRESHOLD_MEDIUM := 60
  const THRESHOLD_HIGH := 100
  const THRESHOLD_CRITICAL := 150

  // ------------------------------------------------------------- the score

  function AccusedBy(s: Signal): set<int> {
    if EncryptionEvidence(s) && PidOf(s).Some? then {PidOf(s).value} else {}
  }

  /** The PIDs with untrusted encryption evidence in the window. */
  function EncPids(sigs: seq<Signal>): set<int> {
    if sigs == [] then {} else EncPids(Front(sigs)) + AccusedBy(Last(sigs))
  }

  lemma {:induction false} EncPidsMembers(sigs: seq<Signal>)
    ensures forall p :: p in EncPids(sigs) <==> exists s :: s in sigs && EncryptionEvidence(s) && PidOf(s) == Some(p)
  {
    if sigs != [] {
      EncPidsMembers(Front(sigs));
      assert sigs == Front(sigs) + [Last(sigs)];
      forall p | p in EncPids(sigs)
        ensures exists s :: s in sigs && EncryptionEvidence(s) && PidOf(s) == Some(p)
      {
        if p in AccusedBy(Last(sigs)) {
          assert Last(sigs) in sigs;
        } else {
          var s :| s in Front(sigs) && EncryptionEvidence(s) && PidOf(s) == Some(p);
          assert s in sigs;
        }
      }
    }
  }

  predicate CorrelatedWith(s: Signal, enc: set<int>) {
    PidOf(s).Some? && PidOf(s).value in enc
  }

  /** What one signal adds to the score when `enc` are the PIDs with encryption evidence. */
  function Contribution(s: Signal, enc: set<int>): int {
    if Trusted(s) then 0
    else if s.name in CORRELATION_GATED_NAMES && !CorrelatedWith(s, enc) then 0
    else s.weight
  }

  function Contributions(enc: set<int>): Signal -> int {
    (s: Signal) => Contribution(s, enc)
  }

  function Score(sigs: seq<Signal>): int {
    SumBy(sigs, Contributions(EncPids(sigs)))
  }

  function NamedBy(pid: int): Signal -> bool {
    (s: Signal) => PidOf(s) == Some(pid)
  }

  function NotNamedBy(pid: int): Signal -> bool {
    (s: Signal) => PidOf(s) != Some(pid)
  }

  /** The part of the score that is attributed to one PID. */
  function Share(sigs: seq<Signal>, pid: int): int {
    SumBy(sigs, OnlyWhere(Contributions(EncPids(sigs)), NamedBy(pid)))
  }

  predicate NonNegativeWeights(sigs: seq<Signal>) {
    forall s :: s in sigs ==> 0 <= s.weight
  }

  lemma {:induction false} EncPidsConcat(a: seq<Signal>, b: seq<Signal>)
    ensures EncPids(a + b) == EncPids(a) + EncPids(b)
  {
    if b == [] {
      assert a + b == a;
    } else {
      EncPidsConcat(a, Front(b));
      assert Front(a + b) == a + Front(b);
    }
  }

  lemma {:induction false} EncPidsWithout(sigs: seq<Signal>, pid: int)
    ensures EncPids(Filter(sigs, NotNamedBy(pid))) == EncPids(sigs) - {pid}
  {
    if sigs != [] {
      EncPidsWithout(Front(sigs), pid);
      var last := if NotNamedBy(pid)(Last(sigs)) then [Last(sigs)] else [];
      EncPidsConcat(Filter(Front(sigs), NotNamedBy(pid)), last);
      assert EncPids([Last(sigs)]) == EncPids([]) + AccusedBy(Last(sigs));
    }
  }

  /** Forgetting a PID leaves exactly the signals of others, and each of them contributes what it did before, gated
      deletes included. */
  lemma ForgettingKeepsTheOthers(sigs: seq<Signal>, pid: int)
    ensures var kept := Filter(sigs, NotNamedBy(pid));
            && (forall s :: s in kept <==> s in sigs && PidOf(s) != Some(pid))
            && (forall s :: s in kept ==> Contribution(s, EncPids(kept)) == Contribution(s, EncPids(sigs)))
  {
    FilterMembers(sigs, NotNamedBy(pid));
    EncPidsWithout(sigs, pid);
  }

  /** It lowers the score by exactly that PID's share. */
  lemma ForgettingRemovesExactlyTheShare(sigs: seq<Signal>, pid: int)
    ensures Score(Filter(sigs, NotNamedBy(pid))) == Score(sigs) - Share(sigs, pid)
  {
    var kept := Filter(sigs, NotNamedBy(pid));
    var f, f' := Contributions(EncPids(sigs)), Contributions(EncPids(kept));
    ForgettingKeepsTheOthers(sigs, pid);
    SumFilter(sigs, f, NotNamedBy(pid));
    SumSplit(sigs, f, OnlyWhere(f, NotNamedBy(pid)), OnlyWhere(f, NamedBy(pid)));
    SumCongruence(kept, f, f');
  }

  /** Every other PID keeps its share, and the forgotten one has none left. */
  lemma ForgettingKeepsOtherShares(sigs: seq<Signal>, pid: int, q: int)
    ensures Share(Filter(sigs, NotNamedBy(pid)), q) == if q == pid then 0 else Share(sigs, q)
  {
    var kept := Filter(sigs, NotNamedBy(pid));
    var f, f' := Contributions(EncPids(sigs)), Contributions(EncPids(kept));
    var g, g' := OnlyWhere(f, NamedBy(q)), OnlyWhere(f', NamedBy(q));
    ForgettingKeepsTheOthers(sigs, pid);
    if q == pid {
      SumCongruence(kept, g', Zero());
      SumOfZero(kept);
    } else {
      SumCongruence(kept, g, g');
      SumFilter(sigs, g, NotNamedBy(pid));
      SumCongruence(sigs, g, OnlyWhere(g, NotNamedBy(pid)));
    }
  }

  /** An untrusted gated signal of the given PID. */
  function GatedOf(pid: int): Signal -> bool {
    (s: Signal) => !Trusted(s) && s.name in CORRELATION_GATED_NAMES && PidOf(s) == Some(pid)
  }

  function WeightOf(): Signal -> int {
    (s: Signal) => s.weight
  }

  /** The weights that become countable when `s` joins the window: those of the gated signals of its PID, if it
      is that PID's first encryption evidence. */
  function Unlocked(sigs: seq<Signal>, s: Signal): int {
    if EncryptionEvidence(s) && PidOf(s).Some? && PidOf(s).value !in EncPids(sigs)
    then SumBy(sigs, OnlyWhere(WeightOf(), GatedOf(PidOf(s).value)))
    else 0
  }

  /** Adding a signal changes the score by its own contribution plus what it unlocks. */
  lemma SubmittingAddsExactly(sigs: seq<Signal>, s: Signal)
    ensures Score(sigs + [s]) ==
            Score(sigs) + Contribution(s, EncPids(sigs + [s])) + Unlocked(sigs, s)
  {
    var enc, enc' := EncPids(sigs), EncPids(sigs + [s]);
    assert Front(sigs + [s]) == sigs;
    if EncryptionEvidence(s) && PidOf(s).Some? && PidOf(s).value !in enc {
      var p := PidOf(s).value;
      SumSplit(sigs, Contributions(enc'), Contributions(enc), OnlyWhere(WeightOf(), GatedOf(p)));
    } else {
      assert enc' == enc;
    }
  }

  function IsGroundTruth(): Signal -> bool {
    (s: Signal) => s.name in GROUND_TRUTH_ENCRYPTION
  }

  /** Ground-truth evidence is always paid in full, whatever the trust stamps say. */
  lemma ScoreCoversGroundTruth(sigs: seq<Signal>)
    requires NonNegativeWeights(sigs)
    ensures SumBy(sigs, OnlyWhere(WeightOf(), IsGroundTruth())) <= Score(sigs)
  {
    forall s | s in sigs
      ensures OnlyWhere(WeightOf(), IsGroundTruth())(s) <= Contributions(EncPids(sigs))(s)
    {
      NameSets(s);
    }
    SumMonotone(sigs, OnlyWhere(WeightOf(), IsGroundTruth()), Contributions(EncPids(sigs)));
  }

  lemma EncPidsOfEnd(sigs: seq<Signal>, k: nat)
    requires k <= |sigs|
    ensures EncPids(sigs[k..]) <= EncPids(sigs)
  {
    assert sigs == sigs[..k] + sigs[k..];
    EncPidsConcat(sigs[..k], sigs[k..]);
  }

  /** The fewer PIDs have evidence, the less a signal contributes. */
  lemma ContributesNoMore(s: Signal, fewer: set<int>, more: set<int>)
    requires fewer <= more && 0 <= s.weight
    ensures 0 <= Contribution(s, fewer) <= Contribution(s, more)
  {
  }

  lemma ScoreSplitsAt(sigs: seq<Signal>, k: nat)
    requires k <= |sigs|
    ensures var f := Contributions(EncPids(sigs));
            Score(sigs) == SumBy(sigs[..k], f) + SumBy(sigs[k..], f)
  {
    assert sigs == sigs[..k] + sigs[k..];
    SumConcat(sigs[..k], sigs[k..], Contributions(EncPids(sigs)));
  }

  /** What a cut after the first k signals does to each contribution. */
  lemma CutShrinks(sigs: seq<Signal>, k: nat)
    requires k <= |sigs| && NonNegativeWeights(sigs)
    ensures var f, f' := Contributions(EncPids(sigs)), Contributions(EncPids(sigs[k..]));
            && (forall s :: s in sigs[k..] ==> f'(s) <= f(s))
            && forall s :: s in sigs[..k] ==> Zero()(s) <= f(s)
  {
    var fewer, more := EncPids(sigs[k..]), EncPids(sigs);
    EncPidsOfEnd(sigs, k);
    forall s | s in sigs
      ensures 0 <= Contribution(s, fewer) <= Contribution(s, more)
    {
      ContributesNoMore(s, fewer, more);
    }
  }

  /** Looking only at the end of the window never yields more than the whole window does. */
  lemma SuffixScoresNoMore(sigs: seq<Signal>, k: nat)
    requires k <= |sigs| && NonNegativeWeights(sigs)
    ensures Score(sigs[k..]) <= Score(sigs)
  {
    var f, f' := Contributions(EncPids(sigs)), Contributions(EncPids(sigs[k..]));
    ScoreSplitsAt(sigs, k);
    CutShrinks(sigs, k);
    SumNonNegative(sigs[..k], f);
    SumMonotone(sigs[k..], f', f);
  }

  /** Dropping the first k signals loses nothing: they contributed nothing, and every signal behind them contributes
      what it did. */
  predicate CutIsIdle(sigs: seq<Signal>, k: nat)
    requires k <= |sigs|
  {
    && (forall s :: s in sigs[..k] ==> Contribution(s, EncPids(sigs)) == 0)
    && forall s :: s in sigs[k..] ==> Contribution(s, EncPids(sigs[k..])) == Contribution(s, EncPids(sigs))
  }

  /** It yields the same exactly when the cut loses nothing. */
  lemma SuffixScoresTheSameIff(sigs: seq<Signal>, k: nat)
    requires k <= |sigs| && NonNegativeWeights(sigs)
    ensures Score(sigs[k..]) == Score(sigs) <==> CutIsIdle(sigs, k)
  {
    var f, f' := Contributions(EncPids(sigs)), Contributions(EncPids(sigs[k..]));
    ScoreSplitsAt(sigs, k);
    CutShrinks(sigs, k);
    SumsEqualIff(sigs[..k], Zero(), f);
    SumOfZero(sigs[..k]);
    SumNonNegative(sigs[..k], f);
    SumsEqualIff(sigs[k..], f', f);
    SumMonotone(sigs[k..], f', f);
  }

  function Untrusted(): Signal -> bool {
    (s: Signal) => !Trusted(s)
  }

  lemma {:induction false} EncPidsIgnoreTrusted(sigs: seq<Signal>)
    ensures EncPids(Filter(sigs, Untrusted())) == EncPids(sigs)
  {
    if sigs != [] {
      EncPidsIgnoreTrusted(Front(sigs));
      var last := if Trusted(Last(sigs)) then [] else [Last(sigs)];
      EncPidsConcat(Filter(Front(sigs), Untrusted()), last);
      assert EncPids([Last(sigs)]) == EncPids([]) + AccusedBy(Last(sigs));
    }
  }

  /** Signals of trusted actors are invisible to the score: they neither count nor corroborate. */
  lemma TrustedSignalsAreInvisible(sigs: seq<Signal>)
    ensures Score(Filter(sigs, Untrusted())) == Score(sigs)
  {
    var f := Contributions(EncPids(sigs));
    EncPidsIgnoreTrusted(sigs);
    SumFilter(sigs, f, Untrusted());
    SumCongruence(sigs, f, OnlyWhere(f, Untrusted()));
  }

  /** Some untrusted encryption signal in the window names the same PID. */
  ghost predicate Corroborated(sigs: seq<Signal>, s: Signal) {
    PidOf(s).Some? && exists e :: e in sigs && EncryptionEvidence(e) && PidOf(e) == PidOf(s)
  }

  /** The signals that count: untrusted, and for the deletion of a file corroborated. */
  ghost function Counted(sigs: seq<Signal>): Signal -> bool {
    (s: Signal) => !Trusted(s) && (s.name == "file_delete" ==> Corroborated(sigs, s))
  }

  /** The score is the total weight of the signals that count. */
  lemma ScoreIsTotalOfCounted(sigs: seq<Signal>)
    ensures Score(sigs) == SumBy(Filter(sigs, Counted(sigs)), WeightOf())
  {
    var f, g := Contributions(EncPids(sigs)), OnlyWhere(WeightOf(), Counted(sigs));
    EncPidsMembers(sigs);
    forall s | s in sigs
      ensures f(s) == g(s)
    {
      assert CorrelatedWith(s, EncPids(sigs)) <==> Corroborated(sigs, s);
    }
    SumFilter(sigs, WeightOf(), Counted(sigs));
    SumCongruence(sigs, f, g);
  }

  // -------------------------------------------------------------- eviction

  /** Drop signals older than the cutoff, stopping at the first one that is not. */
  function Evict(sigs: seq<Signal>, cutoff: real): seq<Signal> {
    if sigs != [] && sigs[0].timestamp < cutoff then Evict(sigs[1..], cutoff) else sigs
  }

  function Fresh(cutoff: real): Signal -> bool {
    (s: Signal) => cutoff <= s.timestamp
  }

  /** No signal is more than d seconds older than one that arrived before it. */
  predicate DisorderedBy(sigs: seq<Signal>, d: real) {
    forall i, j :: 0 <= i < j < |sigs| ==> sigs[i].timestamp - d <= sigs[j].timestamp
  }

  predicate NoStaleBehindFresh(sigs: seq<Signal>, cutoff: real) {
    forall i, j :: 0 <= i < j < |sigs| && cutoff <= sigs[i].timestamp ==> cutoff <= sigs[j].timestamp
  }

  /** Eviction removes a prefix of stale signals and stops at a fresh one. */
  lemma {:induction false} EvictDropsStalePrefix(sigs: seq<Signal>, cutoff: real) returns (k: nat)
    ensures k <= |sigs| && Evict(sigs, cutoff) == sigs[k..]
    ensures forall i :: 0 <= i < k ==> sigs[i].timestamp < cutoff
    ensures k < |sigs| ==> cutoff <= sigs[k].timestamp
  {
    if sigs != [] && sigs[0].timestamp < cutoff {
      var k' := EvictDropsStalePrefix(sigs[1..], cutoff);
      k := k' + 1;
    } else {
      k := 0;
    }
  }

  /** Inspecting only the front keeps exactly the fresh signals if and only if no stale one hides behind a fresh
      one. */
  lemma EvictionExactIff(sigs: seq<Signal>, cutoff: real)
    ensures Evict(sigs, cutoff) == Filter(sigs, Fresh(cutoff)) <==>
            NoStaleBehindFresh(sigs, cutoff)
  {
    var k := EvictDropsStalePrefix(sigs, cutoff);
    FilterSkipsStalePrefix(sigs, k, cutoff);
    FilterAll(sigs[k..], Fresh(cutoff));
    SuffixFreshIff(sigs, k, cutoff);
  }

  lemma SuffixFreshIff(sigs: seq<Signal>, k: nat, cutoff: real)
    requires k <= |sigs| && forall i :: 0 <= i < k ==> sigs[i].timestamp < cutoff
    requires k < |sigs| ==> cutoff <= sigs[k].timestamp
    ensures (forall s :: s in sigs[k..] ==> Fresh(cutoff)(s)) <==> NoStaleBehindFresh(sigs, cutoff)
  {
    if forall s :: s in sigs[k..] ==> Fresh(cutoff)(s) {
      forall j | k <= j < |sigs|
        ensures cutoff <= sigs[j].timestamp
      {
        assert sigs[j] in sigs[k..];
      }
    } else {
      var s :| s in sigs[k..] && !Fresh(cutoff)(s);
      var j :| k <= j < |sigs| && sigs[j] == s;
      assert !NoStaleBehindFresh(sigs, cutoff);
    }
  }

  lemma FilterSkipsStalePrefix(sigs: seq<Signal>, k: nat, cutoff: real)
    requires k <= |sigs| && forall i :: 0 <= i < k ==> sigs[i].timestamp < cutoff
    ensures Filter(sigs, Fresh(cutoff)) == Filter(sigs[k..], Fresh(cutoff))
  {
    assert sigs == sigs[..k] + sigs[k..];
    FilterConcat(sigs[..k], sigs[k..], Fresh(cutoff));
    FilterNone(sigs[..k], Fresh(cutoff));
  }

  /** With arrivals out of order by at most d, nothing that stays is older than the cutoff less d. */
  lemma EvictionUnderDisorder(sigs: seq<Signal>, cutoff: real, d: real)
    requires 0.0 <= d && DisorderedBy(sigs, d)
    ensures forall s :: s in Evict(sigs, cutoff) ==> cutoff - d <= s.timestamp
    ensures DisorderedBy(Evict(sigs, cutoff), d)
  {
    var k := EvictDropsStalePrefix(sigs, cutoff);
    forall s | s in Evict(sigs, cutoff)
      ensures cutoff - d <= s.timestamp
    {
      var j :| 0 <= j < |sigs[k..]| && sigs[k..][j] == s;
      assert s == sigs[k + j];
    }
  }

  /** The front of the window is fresh, so evicting at this cutoff would remove nothing. */
  predicate Settled(sigs: seq<Signal>, cutoff: real) {
    sigs != [] ==> cutoff <= sigs[0].timestamp
  }

  /** Evicting again at the same reading removes nothing. */
  lemma {:induction false} EvictSettles(sigs: seq<Signal>, cutoff: real)
    ensures Settled(Evict(sigs, cutoff), cutoff)
    ensures Evict(Evict(sigs, cutoff), cutoff) == Evict(sigs, cutoff)
  {
    var k := EvictDropsStalePrefix(sigs, cutoff);
  }

  lemma {:induction false} FilterKeepsDisorder(sigs: seq<Signal>, keep: Signal -> bool, d: real)
    requires DisorderedBy(sigs, d)
    ensures DisorderedBy(Filter(sigs, keep), d)
  {
    if sigs != [] {
      FilterKeepsDisorder(Front(sigs), keep, d);
      FilterMembers(Front(sigs), keep);
      var kept := Filter(Front(sigs), keep);
      forall i | 0 <= i < |kept|
        ensures kept[i].timestamp - d <= Last(sigs).timestamp
      {
        assert kept[i] in Front(sigs);
      }
    }
  }

  lemma ArrivalKeepsDisorder(sigs: seq<Signal>, s: Signal, d: real, d': real)
    requires DisorderedBy(sigs, d) && d <= d'
    requires forall x :: x in sigs ==> x.timestamp - d' <= s.timestamp
    ensures DisorderedBy(sigs + [s], d')
  {
    forall i | 0 <= i < |sigs|
      ensures sigs[i].timestamp - d' <= s.timestamp
    {
      assert sigs[i] in sigs;
    }
  }

  /** The i-th signal arrived at the i-th time, no more than d seconds after its timestamp and not before it. */
  predicate ArrivedWithin(sigs: seq<Signal>, arrivals: seq<real>, d: real) {
    && |arrivals| == |sigs|
    && (forall i, j :: 0 <= i < j < |arrivals| ==> arrivals[i] <= arrivals[j])
    && (forall i :: 0 <= i < |sigs| ==> arrivals[i] - d <= sigs[i].timestamp <= arrivals[i])
  }

  /** If every signal arrives at most d seconds after its timestamp, eviction removes only signals that are too old
      and leaves none that is older than the window plus d; without delay it leaves exactly those in the window. */
  lemma EvictionUnderDelay(sigs: seq<Signal>, arrivals: seq<real>, d: real, window: real, now: real)
    requires 0.0 <= d && ArrivedWithin(sigs, arrivals, d)
    ensures var kept := Evict(sigs, now - window);
            && |kept| <= |sigs| && kept == sigs[|sigs| - |kept|..]
            && (forall i :: 0 <= i < |sigs| - |kept| ==> window < now - sigs[i].timestamp)
            && (forall s :: s in kept ==> now - s.timestamp <= window + d)
            && (d == 0.0 ==> kept == Filter(sigs, Fresh(now - window)))
  {
    var k := EvictDropsStalePrefix(sigs, now - window);
    EvictionUnderDisorder(sigs, now - window, d);
    if d == 0.0 {
      EvictionExactIff(sigs, now - window);
    }
  }

  // ---------------------------------------------------------------- queries

  /** The end slice `[-limit:]` of the source language: everything for 0, and for a negative limit everything
      but the first -limit elements. */
  function EndSlice(sigs: seq<Signal>, limit: int): (r: seq<Signal>)
    ensures 0 <= |sigs| - |r| && r == sigs[|sigs| - |r|..]
    ensures 0 < limit ==> |r| == if limit < |sigs| then limit else |sigs|
    ensures limit <= 0 ==> |r| == if -limit < |sigs| then |sigs| + limit else 0
  {
    if 0 < limit then Tail(sigs, limit)
    else if -limit <= |sigs| then sigs[-limit..]
    else []
  }

  predicate HasEncryptionActivity(sigs: seq<Signal>, exclude: Option<nat>) {
    exists s :: s in sigs && EncryptionEvidence(s) && exclude != Some(s.id)
  }

  function LevelForScore(score: int): (level: Severity)
    ensures level == CRITICAL <==> 150 <= score
    ensures level == HIGH <==> 100 <= score < 150
    ensures level == MEDIUM <==> 60 <= score < 100
    ensures level == LOW <==> 30 <= score < 60
    ensures level == INFO <==> score < 30
  {
    if THRESHOLD_CRITICAL <= score then CRITICAL
    else if THRESHOLD_HIGH <= score then HIGH
    else if THRESHOLD_MEDIUM <= score then MEDIUM
    else if THRESHOLD_LOW <= score then LOW
    else INFO
  }

  /** What the optional actor classifier answers for a signal. */
  datatype Classifier = NoClassifier | Answers(trusted: bool) | Raises

  /** The stamp set on submission: a classifier that raises counts as untrusted, and a signal that already
      carries a stamp keeps it. */
  function Stamp(s: Signal, classifier: Classifier): Signal {
    if classifier.NoClassifier? || "actor_trusted" in s.metadata then s
    else s.(metadata := s.metadata["actor_trusted" := BoolValue(classifier == Answers(true))])
  }

  function AfterSubmit(window: seq<Signal>, seconds: real, s: Signal, classifier: Classifier, now: real): seq<Signal> {
    Evict(window + [Stamp(s, classifier)], now - seconds)
  }

  /** `joined` is the signal as submitted, but for the stamp of trust. A stamp it carries is kept. Otherwise, unless it
      is ground truth, it counts as trusted exactly when the classifier says so; no classifier, a raise and a false
      answer all leave it untrusted. */
  ghost predicate JoinsAs(joined: Signal, s: Signal, classifier: Classifier) {
    && joined.id == s.id && joined.detector == s.detector && joined.name == s.name && joined.weight == s.weight
    && joined.severity == s.severity && joined.timestamp == s.timestamp
    && (forall key :: key != "actor_trusted" ==>
          (key in joined.metadata <==> key in s.metadata)
          && (key in s.metadata ==> joined.metadata[key] == s.metadata[key]))
    && ("actor_trusted" in s.metadata ==> joined == s)
    && ("actor_trusted" !in s.metadata && s.name !in GROUND_TRUTH_ENCRYPTION ==>
          (Trusted(joined) <==> classifier == Answers(true)))
  }

  lemma StampJoins(s: Signal, classifier: Classifier)
    ensures JoinsAs(Stamp(s, classifier), s, classifier)
  {
  }

  /** Nothing in the window has expired. */
  predicate AllFresh(window: seq<Signal>, cutoff: real) {
    forall x :: x in window ==> cutoff <= x.timestamp
  }

  lemma SubmittedIsLast(window: seq<Signal>, joined: Signal, cutoff: real)
    ensures var after := Evict(window + [joined], cutoff);
            && (cutoff <= joined.timestamp ==> after != [] && Last(after) == joined)
            && (cutoff <= joined.timestamp && AllFresh(window, cutoff) ==>
                  && after == window + [joined]
                  && Score(after) == Score(window) + Contribution(joined, EncPids(after)) + Unlocked(window, joined))
  {
    var k := EvictDropsStalePrefix(window + [joined], cutoff);
    SubmittingAddsExactly(window, joined);
    if window != [] {
      assert window[0] in window && (window + [joined])[0] == window[0];
    }
  }

  /** A submitted signal that is not older than the window is in it afterwards, behind whatever has not expired. When
      nothing expires, the score grows by exactly what the signal contributes and unlocks. */
  lemma SubmittedJoinsTheWindow(window: seq<Signal>, seconds: real, s: Signal, classifier: Classifier, now: real)
    requires now - seconds <= s.timestamp
    ensures var after := AfterSubmit(window, seconds, s, classifier, now);
            && after != [] && JoinsAs(Last(after), s, classifier)
            && |after| <= |window| + 1 && Front(after) == window[|window| + 1 - |after|..]
            && (AllFresh(window, now - seconds) ==>
                  && Front(after) == window
                  && Score(after) == Score(window) + Contribution(Last(after), EncPids(after))
                                     + Unlocked(window, Last(after)))
  {
    var joined := Stamp(s, classifier);
    var k := EvictDropsStalePrefix(window + [joined], now - seconds);
    StampJoins(s, classifier);
    SubmittedIsLast(window, joined, now - seconds);
    var after := (window + [joined])[k..];
    assert k <= |window| && Front(after) == window[k..];
  }

  // ----------------------------------------------------------------- engine

  class ScoringEngine {
    var signals: seq<Signal>
    const window: real

    /** The latest clock reading, and how far behind and ahead of it submitted timestamps have been. */
    ghost var clock: real
    ghost var lag: real
    ghost var ahead: real

    ghost predicate Valid()
      reads this
    {
      && 0.0 <= lag && 0.0 <= ahead
      && DisorderedBy(signals, lag + ahead)
      && forall s :: s in signals ==> s.timestamp <= clock + ahead
    }

    constructor (window: real, now: real)
      ensures Valid() && signals == [] && this.window == window
      ensures clock == now && lag == 0.0 && ahead == 0.0
    {
      this.window := window;
      signals := [];
      clock, lag, ahead := now, 0.0, 0.0;
    }

    /** Nothing older than the window plus the observed disorder survives; with timestamps that equal their
        arrival times the disorder is zero and exactly the fresh signals stay. */
    method EvictOld(now: real)
      requires Valid() && clock <= now
      modifies this`signals, this`clock
      ensures Valid() && clock == now
      ensures signals == Evict(old(signals), now - window)
      ensures forall s :: s in signals ==> now - window - (lag + ahead) <= s.timestamp
      ensures lag + ahead == 0.0 ==> signals == Filter(old(signals), Fresh(now - window))
    {
      clock := now;
      var cutoff := now - window;
      while signals != [] && signals[0].timestamp < cutoff
        invariant Valid() && clock == now
        invariant Evict(signals, cutoff) == Evict(old(signals), cutoff)
      {
        signals := signals[1..];
      }
      EvictionUnderDisorder(old(signals), cutoff, lag + ahead);
      EvictionExactIff(old(signals), cutoff);
    }

    method CurrentScoreLocked() returns (total: int)
      ensures total == Score(signals)
    {
      var encPids: set<int> := {};
      for i := 0 to |signals|
        invariant encPids == EncPids(signals[..i])
      {
        var s := signals[i];
        assert Front(signals[..i + 1]) == signals[..i];
        if Trusted(s) {
          continue;
        }
        if s.name in ENCRYPTION_SIGNAL_NAMES {
          var p := PidOf(s);
          if p.Some? {
            encPids := encPids + {p.value};
          }
        }
      }
      assert signals[..|signals|] == signals;

      total := SumContributions(encPids);
    }

    method SumContributions(encPids: set<int>) returns (total: int)
      ensures total == SumBy(signals, Contributions(encPids))
    {
      total := 0;
      for i := 0 to |signals|
        invariant total == SumBy(signals[..i], Contributions(encPids))
      {
        assert Front(signals[..i + 1]) == signals[..i];
        var s := signals[i];
        if Trusted(s) {
          continue;
        }
        if s.name in CORRELATION_GATED_NAMES {
          if CorrelatedWith(s, encPids) {
            total := total + s.weight;
          }
          continue;
        }
        total := total + s.weight;
      }
      assert signals[..|signals|] == signals;
    }

    /** Stamp the actor's trust unless the signal carries a stamp or there is no classifier. */
    static method ClassifyActor(s: Signal, classifier: Classifier) returns (stamped: Signal)
      ensures stamped == Stamp(s, classifier) && stamped.timestamp == s.timestamp
      ensures JoinsAs(stamped, s, classifier)
    {
      stamped := s;
      if !classifier.NoClassifier? && "actor_trusted" !in s.metadata {
        var verdict := classifier.Answers? && classifier.trusted;
        stamped := s.(metadata := s.metadata["actor_trusted" := BoolValue(verdict)]);
      }
      StampJoins(s, classifier);
    }

    /** Take a signal in and note how far its time is from the clock. */
    method Append(s: Signal, now: real)
      requires Valid() && clock <= now
      modifies this
      ensures Valid() && clock == now && signals == old(signals) + [s]
      ensures lag == Max(old(lag), now - s.timestamp) && ahead == Max(old(ahead), s.timestamp - now)
    {
      ghost var disorder := lag + ahead;
      lag, ahead := Max(lag, now - s.timestamp), Max(ahead, s.timestamp - now);
      ArrivalKeepsDisorder(signals, s, disorder, lag + ahead);
      signals := signals + [s];
      clock := now;
    }

    method Submit(s: Signal, classifier: Classifier, now: real)
      returns (stamped: Signal, score: int, level: Severity)
      requires Valid() && clock <= now
      modifies this
      ensures Valid() && clock == now
      ensures stamped == Stamp(s, classifier)
      ensures signals == AfterSubmit(old(signals), window, s, classifier, now)
      ensures score == Score(signals) && level == LevelForScore(score)
      ensures lag == Max(old(lag), now - s.timestamp) && ahead == Max(old(ahead), s.timestamp - now)
      ensures JoinsAs(stamped, s, classifier)
      ensures now - window <= s.timestamp ==> signals != [] && Last(signals) == stamped
      ensures now - window <= s.timestamp && AllFresh(old(signals), now - window) ==>
                && signals == old(signals) + [stamped]
                && score == Score(old(signals)) + Contribution(stamped, EncPids(signals))
                            + Unlocked(old(signals), stamped)
    {
      stamped := ClassifyActor(s, classifier);
      ghost var before := signals;
      Append(stamped, now);
      score := CurrentScore(now);
      level := LevelForScore(score);
      SubmittedIsLast(before, stamped, now - window);
    }

    method CurrentScore(now: real) returns (score: int)
      requires Valid() && clock <= now
      modifies this`signals, this`clock
      ensures Valid() && clock == now
      ensures signals == Evict(old(signals), now - window) && score == Score(signals)
    {
      EvictOld(now);
      score := CurrentScoreLocked();
    }

    method CurrentLevel(now: real) returns (level: Severity)
      requires Valid() && clock <= now
      modifies this`signals, this`clock
      ensures Valid() && clock == now
      ensures signals == Evict(old(signals), now - window) && level == LevelForScore(Score(signals))
    {
      var score := CurrentScore(now);
      level := LevelForScore(score);
    }

    method RecentSignals(limit: int, now: real) returns (recent: seq<Signal>)
      requires Valid() && clock <= now
      modifies this`signals, this`clock
      ensures Valid() && clock == now
      ensures signals == Evict(old(signals), now - window) && recent == EndSlice(signals, limit)
    {
      EvictOld(now);
      recent := EndSlice(signals, limit);
    }

    method FindEncryptionActivity(exclude: Option<nat>, now: real) returns (found: bool)
      requires Valid() && clock <= now
      modifies this`signals, this`clock
      ensures Valid() && clock == now
      ensures signals == Evict(old(signals), now - window)
      ensures found == HasEncryptionActivity(signals, exclude)
    {
      EvictOld(now);
      for i := 0 to |signals|
        invariant forall j :: 0 <= j < i ==> !EncryptionEvidence(signals[j]) || exclude == Some(signals[j].id)
      {
        var s := signals[i];
        if exclude == Some(s.id) {
          continue;
        }
        if Trusted(s) {
          continue;
        }
        if s.name in ENCRYPTION_SIGNAL_NAMES {
          return true;
        }
      }
      return false;
    }

    method Reset()
      requires Valid()
      modifies this`signals
      ensures Valid() && signals == []
    {
      signals := [];
    }

    /** Remove every signal of a PID; report how many went and lower the score by that PID's share. */
    method ForgetPid(pid: int) returns (removed: nat)
      requires Valid()
      modifies this`signals
      ensures Valid()
      ensures signals == Filter(old(signals), NotNamedBy(pid))
      ensures removed == |old(signals)| - |signals|
      ensures Score(signals) == Score(old(signals)) - Share(old(signals), pid)
    {
      ghost var before := signals;
      var kept: seq<Signal> := [];
      for i := 0 to |signals|
        invariant kept == Filter(signals[..i], NotNamedBy(pid))
      {
        assert Front(signals[..i + 1]) == signals[..i];
        if PidOf(signals[i]) != Some(pid) {
          kept := kept + [signals[i]];
        }
      }
      assert signals[..|signals|] == signals;
      FilterMembers(signals, NotNamedBy(pid));
      removed := |signals| - |kept|;
      signals := kept;
      FilterKeepsDisorder(before, NotNamedBy(pid), lag + ahead);
      ForgettingRemovesExactlyTheShare(before, pid);
    }
  }
}
