/** Suppression of repeated reports about a process state that was reported less than a minute ago. */
module ReportDedup {
  import opened Collections

  const REPORT_DEDUP_SECS: real := 60.0
  const REPORT_DEDUP_MAX := 2048

  /** What is reported about a process: a later, different state is a different key. */
  datatype Key = Key(pid: int, terminated: bool, quarantined: bool)

  type Table = map<Key, real>

  predicate Suppressed(t: Table, k: Key, now: real) {
    k in t && now - t[k] < REPORT_DEDUP_SECS
  }

  function Prune(t: Table, now: real): Table {
    map k | k in t && now - REPORT_DEDUP_SECS <= t[k] :: t[k]
  }

  /** The table after a call. With `bounded` it is pruned once it exceeds the limit, as the reporter does; without it
      grows for ever. */
  function After(t: Table, k: Key, now: real, bounded: bool): Table {
    if Suppressed(t, k, now) then t
    else
      var t' := t[k := now];
      if bounded && |t'| > REPORT_DEDUP_MAX then Prune(t', now) else t'
  }

  datatype Call = Call(key: Key, now: real)

  function Run(calls: seq<Call>, bounded: bool): Table {
    if calls == [] then map[]
    else After(Run(Front(calls), bounded), Last(calls).key, Last(calls).now, bounded)
  }

  /** The i-th call is answered with a report. */
  predicate ReportedAt(calls: seq<Call>, i: nat, bounded: bool)
    requires i < |calls|
  {
    !Suppressed(Run(calls[..i], bounded), calls[i].key, calls[i].now)
  }

  predicate InOrder(calls: seq<Call>) {
    forall i, j :: 0 <= i < j < |calls| ==> calls[i].now <= calls[j].now
  }

  // ---------------------------------------------- pruning is unobservable

  /** The pruned table agrees with the full one except for entries that have expired. */
  predicate Agrees(pruned: Table, full: Table, now: real) {
    && (forall k :: k in pruned ==> k in full && pruned[k] == full[k])
    && (forall k :: k in full && k !in pruned ==> full[k] < now - REPORT_DEDUP_SECS)
  }

  lemma AgreementSurvives(pruned: Table, full: Table, k: Key, before: real, now: real)
    requires Agrees(pruned, full, before) && before <= now
    ensures Suppressed(pruned, k, now) <==> Suppressed(full, k, now)
    ensures Agrees(After(pruned, k, now, true), After(full, k, now, false), now)
  {
  }

  lemma {:induction false} TablesAgree(calls: seq<Call>, now: real)
    requires InOrder(calls) && (calls != [] ==> Last(calls).now <= now)
    ensures Agrees(Run(calls, true), Run(calls, false), now)
  {
    if calls != [] {
      TablesAgree(Front(calls), Last(calls).now);
      AgreementSurvives(Run(Front(calls), true), Run(Front(calls), false), Last(calls).key, Last(calls).now,
                        Last(calls).now);
    }
  }

  /** Every call, in every sequence of calls on a nondecreasing clock, gets the same answer from the pruned table as
      from one that is never pruned. */
  lemma PruningIsUnobservable(calls: seq<Call>, i: nat)
    requires InOrder(calls) && i < |calls|
    ensures ReportedAt(calls, i, true) <==> ReportedAt(calls, i, false)
  {
    TablesAgree(calls[..i], calls[i].now);
    AgreementSurvives(Run(calls[..i], true), Run(calls[..i], false), calls[i].key, calls[i].now, calls[i].now);
  }

  // -------------------------------------------- what the answers amount to

  /** Every entry of the table is the time of a report about that state. */
  ghost predicate EntriesAreReports(calls: seq<Call>, t: Table) {
    forall k :: k in t ==>
      exists j :: 0 <= j < |calls| && calls[j] == Call(k, t[k]) && ReportedAt(calls, j, false)
  }

  /** No report about a state is later than its entry. */
  ghost predicate EntriesAreLatest(calls: seq<Call>, t: Table) {
    forall j :: 0 <= j < |calls| && ReportedAt(calls, j, false) ==>
      calls[j].key in t && calls[j].now <= t[calls[j].key]
  }

  lemma ReportedAtFront(calls: seq<Call>, j: nat)
    requires j < |calls| - 1
    ensures ReportedAt(Front(calls), j, false) <==> ReportedAt(calls, j, false)
  {
    assert Front(calls)[..j] == calls[..j];
  }

  lemma EntriesSnoc(calls: seq<Call>)
    requires calls != [] && EntriesAreReports(Front(calls), Run(Front(calls), false))
    ensures EntriesAreReports(calls, Run(calls, false))
  {
    var n, t, t' := |calls| - 1, Run(Front(calls), false), Run(calls, false);
    assert calls[..n] == Front(calls);
    forall k | k in t'
      ensures exists j :: 0 <= j < |calls| && calls[j] == Call(k, t'[k]) && ReportedAt(calls, j, false)
    {
      if k == calls[n].key && ReportedAt(calls, n, false) {
        assert calls[n] == Call(k, t'[k]);
      } else {
        var j :| 0 <= j < n && Front(calls)[j] == Call(k, t[k]) && ReportedAt(Front(calls), j, false);
        ReportedAtFront(calls, j);
        assert calls[j] == Call(k, t'[k]);
      }
    }
  }

  lemma EntriesGrow(calls: seq<Call>, j: nat)
    requires j < |calls| - 1 && InOrder(calls)
    requires calls[j].key in Run(Front(calls), false)
    requires calls[j].now <= Run(Front(calls), false)[calls[j].key]
    ensures calls[j].key in Run(calls, false) && calls[j].now <= Run(calls, false)[calls[j].key]
  {
  }

  lemma LatestSnoc(calls: seq<Call>)
    requires calls != [] && InOrder(calls) && EntriesAreLatest(Front(calls), Run(Front(calls), false))
    ensures EntriesAreLatest(calls, Run(calls, false))
  {
    var n := |calls| - 1;
    assert calls[..n] == Front(calls);
    forall j | 0 <= j < |calls| && ReportedAt(calls, j, false)
      ensures calls[j].key in Run(calls, false) && calls[j].now <= Run(calls, false)[calls[j].key]
    {
      if j < n {
        ReportedAtFront(calls, j);
        assert Front(calls)[j] == calls[j];
        EntriesGrow(calls, j);
      }
    }
  }

  lemma {:induction false} FullTableHoldsLatest(calls: seq<Call>)
    requires InOrder(calls)
    ensures EntriesAreReports(calls, Run(calls, false)) && EntriesAreLatest(calls, Run(calls, false))
  {
    if calls != [] {
      FullTableHoldsLatest(Front(calls));
      EntriesSnoc(calls);
      LatestSnoc(calls);
    }
  }

  lemma PrunedReport(calls: seq<Call>, i: nat, j: nat)
    requires InOrder(calls) && j < i <= |calls|
    ensures ReportedAt(calls, j, true) <==> ReportedAt(calls[..i], j, false)
  {
    PruningIsUnobservable(calls, j);
    assert calls[..j] == calls[..i][..j];
  }

  /** The table that is never pruned answers with a report exactly when its history holds no recent one. */
  lemma SuppressedIffRecent(before: seq<Call>, key: Key, now: real)
    requires InOrder(before)
    ensures Suppressed(Run(before, false), key, now) <==>
            exists j :: 0 <= j < |before| && before[j].key == key && ReportedAt(before, j, false)
                        && now - before[j].now < REPORT_DEDUP_SECS
  {
    var t := Run(before, false);
    FullTableHoldsLatest(before);
    if Suppressed(t, key, now) {
      var j :| 0 <= j < |before| && before[j] == Call(key, t[key]) && ReportedAt(before, j, false);
    }
  }

  /** A call is answered with a report exactly when no report about the same state is less than 60 s old. */
  lemma ReportedUnlessRecent(calls: seq<Call>, i: nat)
    requires InOrder(calls) && i < |calls|
    ensures ReportedAt(calls, i, true) <==>
            forall j :: 0 <= j < i && calls[j].key == calls[i].key && ReportedAt(calls, j, true) ==>
                          60.0 <= calls[i].now - calls[j].now
  {
    PruningIsUnobservable(calls, i);
    SuppressedIffRecent(calls[..i], calls[i].key, calls[i].now);
    forall j | 0 <= j < i
      ensures ReportedAt(calls, j, true) <==> ReportedAt(calls[..i], j, false)
    {
      PrunedReport(calls, i, j);
    }
  }

  /** Two reports about the same state are at least 60 s apart. */
  lemma ReportsAreSpaced(calls: seq<Call>, i: nat, j: nat)
    requires InOrder(calls) && i < j < |calls| && calls[i].key == calls[j].key
    requires ReportedAt(calls, i, true) && ReportedAt(calls, j, true)
    ensures 60.0 <= calls[j].now - calls[i].now
  {
    ReportedUnlessRecent(calls, j);
  }

  /** The table holds more than 2048 entries only while all of them are at most 60 s older than the latest report. */
  lemma {:induction false} TableIsPruned(calls: seq<Call>)
    ensures var t := Run(calls, true);
            2048 < |t| ==>
              exists j :: 0 <= j < |calls| && ReportedAt(calls, j, true)
                          && forall k :: k in t ==> calls[j].now - 60.0 <= t[k]
  {
    if calls != [] {
      var front, n := Front(calls), |calls| - 1;
      TableIsPruned(front);
      assert calls[..n] == front;
      if ReportedAt(calls, n, true) {
      } else if 2048 < |Run(front, true)| {
        var j :| 0 <= j < n && ReportedAt(front, j, true)
                 && forall k :: k in Run(front, true) ==> front[j].now - 60.0 <= Run(front, true)[k];
        assert calls[..j] == front[..j];
        assert ReportedAt(calls, j, true);
      }
    }
  }
}
