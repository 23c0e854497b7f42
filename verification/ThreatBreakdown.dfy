/** The per-PID view of the score: a second computation of the same sum, bucketed by PID. */
module ThreatBreakdown {
  import opened Collections
  import opened Signals
  import opened Scoring

  datatype Row = Row(
    pid: Option<int>,
    score: int,
    signals: seq<Signal>,
    process: string,
    maxSeverity: Severity,
    trusted: bool)

  function Rank(s: Severity): nat {
    match s
    case INFO => 0
    case LOW => 1
    case MEDIUM => 2
    case HIGH => 3
    case CRITICAL => 4
  }

  /** The bucket of a signal; signals without a PID share bucket 0. */
  function Key(s: Signal): nat {
    var p := PidOf(s);
    if p.Some? then p.value else 0
  }

  function KeyIs(key: nat): Signal -> bool {
    (s: Signal) => Key(s) == key
  }

  function NewRow(s: Signal): Row {
    Row(PidOf(s), 0, [], "", INFO, Trusted(s))
  }

  function AddTo(row: Row, s: Signal, contributes: int): Row {
    row.(
      score := row.score + contributes,
      signals := row.signals + [s],
      process := if row.process == "" then TextUnder(s.metadata, "process") else row.process,
      maxSeverity := if Rank(row.maxSeverity) < Rank(s.severity) then s.severity else row.maxSeverity)
  }

  function RowFor(sigs: seq<Signal>, enc: set<int>, key: nat): Option<Row> {
    if sigs == [] then None
    else
      var row := RowFor(Front(sigs), enc, key);
      var s := Last(sigs);
      if Key(s) != key then row
      else Some(AddTo(if row.Some? then row.value else NewRow(s), s, Contribution(s, enc)))
  }

  /** A row lists exactly the signals of its key, in order, and its score is the sum of their contributions. */
  lemma {:induction false} RowMeaning(sigs: seq<Signal>, enc: set<int>, key: nat)
    ensures var row := RowFor(sigs, enc, key);
            && SumBy(sigs, OnlyWhere(Contributions(enc), KeyIs(key))) == (if row.Some? then row.value.score else 0)
            && Filter(sigs, KeyIs(key)) == (if row.Some? then row.value.signals else [])
  {
    if sigs != [] {
      RowMeaning(Front(sigs), enc, key);
    }
  }

  predicate NoGraver(a: Severity, b: Severity) {
    || a == INFO
    || (a == LOW && b != INFO)
    || (a == MEDIUM && b != INFO && b != LOW)
    || (a == HIGH && (b == HIGH || b == CRITICAL))
    || (a == CRITICAL && b == CRITICAL)
  }

  /** A row exists exactly for the keys that occur, carries the PID of its key, and its severity is the greatest of
      its signals'. */
  lemma {:induction false} RowExists(sigs: seq<Signal>, enc: set<int>, key: nat)
    ensures var row := RowFor(sigs, enc, key);
            && (row.Some? <==> exists s :: s in sigs && Key(s) == key)
            && (row.Some? ==> row.value.pid == if key == 0 then None else Some(key))
            && (row.Some? ==> forall s :: s in sigs && Key(s) == key ==>
                                            NoGraver(s.severity, row.value.maxSeverity))
            && (row.Some? ==> exists s :: s in sigs && Key(s) == key && s.severity == row.value.maxSeverity)
  {
    if sigs != [] {
      RowExists(Front(sigs), enc, key);
      assert sigs == Front(sigs) + [Last(sigs)];
      assert Last(sigs) in sigs;
      var before, row := RowFor(Front(sigs), enc, key), RowFor(sigs, enc, key);
      if row.Some? && row.value.maxSeverity != Last(sigs).severity {
        assert before.Some? && row.value.maxSeverity == before.value.maxSeverity;
        var s :| s in Front(sigs) && Key(s) == key && s.severity == row.value.maxSeverity;
        assert s in sigs;
      }
    }
  }

  /** The first text that is not empty under "process" in the signals' metadata. */
  function FirstProcess(sigs: seq<Signal>): string {
    if sigs == [] then ""
    else if TextUnder(sigs[0].metadata, "process") != "" then TextUnder(sigs[0].metadata, "process")
    else FirstProcess(sigs[1..])
  }

  lemma {:induction false} FirstProcessSnoc(sigs: seq<Signal>, s: Signal)
    ensures FirstProcess(sigs + [s]) ==
            if FirstProcess(sigs) != "" then FirstProcess(sigs) else TextUnder(s.metadata, "process")
  {
    if sigs == [] {
      assert (sigs + [s])[1..] == [];
    } else {
      assert (sigs + [s])[1..] == sigs[1..] + [s];
      FirstProcessSnoc(sigs[1..], s);
    }
  }

  /** A row names the process that the first of its signals to name one names, and is marked trusted when its first
      signal is. */
  lemma {:induction false} RowNamesProcess(sigs: seq<Signal>, enc: set<int>, key: nat)
    ensures var row, mine := RowFor(sigs, enc, key), Filter(sigs, KeyIs(key));
            && (row.Some? ==> mine != [] && row.value.trusted == Trusted(mine[0]))
            && FirstProcess(mine) == if row.Some? then row.value.process else ""
  {
    if sigs != [] {
      var before := Filter(Front(sigs), KeyIs(key));
      RowNamesProcess(Front(sigs), enc, key);
      RowMeaning(Front(sigs), enc, key);
      FirstProcessSnoc(before, Last(sigs));
      var row, s := RowFor(Front(sigs), enc, key), Last(sigs);
      if Key(s) == key {
        assert Filter(sigs, KeyIs(key)) == before + [s];
        var from := if row.Some? then row.value else NewRow(s);
        assert RowFor(sigs, enc, key) == Some(AddTo(from, s, Contribution(s, enc)));
        assert from.process == FirstProcess(before);
      } else {
        assert Filter(sigs, KeyIs(key)) == before;
      }
    }
  }

  // ------------------------------------------------- summing over the rows

  /** The sum, over a list of keys, of what the signals of that key contribute. */
  function SumOverKeys(keys: seq<nat>, sigs: seq<Signal>, f: Signal -> int): int {
    if keys == [] then 0
    else SumOverKeys(Front(keys), sigs, f) + SumBy(sigs, OnlyWhere(f, KeyIs(Last(keys))))
  }

  lemma {:induction false} SumOverKeysSnoc(keys: seq<nat>, sigs: seq<Signal>, s: Signal, f: Signal -> int)
    requires Distinct(keys)
    ensures SumOverKeys(keys, sigs + [s], f) == SumOverKeys(keys, sigs, f) + if Key(s) in keys then f(s) else 0
  {
    if keys != [] {
      SumOverKeysSnoc(Front(keys), sigs, s, f);
      assert Front(sigs + [s]) == sigs;
      assert keys == Front(keys) + [Last(keys)];
      assert Last(keys) !in Front(keys);
    }
  }

  lemma {:induction false} SumOverKeysOfNothing(keys: seq<nat>, f: Signal -> int)
    ensures SumOverKeys(keys, [], f) == 0
  {
    if keys != [] {
      SumOverKeysOfNothing(Front(keys), f);
    }
  }

  /** Bucketing loses nothing and counts nothing twice. */
  lemma {:induction false} BucketsPartitionTheSum(keys: seq<nat>, sigs: seq<Signal>, f: Signal -> int)
    requires Distinct(keys) && forall s :: s in sigs ==> Key(s) in keys
    ensures SumOverKeys(keys, sigs, f) == SumBy(sigs, f)
  {
    if sigs == [] {
      SumOverKeysOfNothing(keys, f);
    } else {
      BucketsPartitionTheSum(keys, Front(sigs), f);
      SumOverKeysSnoc(keys, Front(sigs), Last(sigs), f);
      assert sigs == Front(sigs) + [Last(sigs)];
    }
  }

  function RowScore(): Row -> int {
    (r: Row) => r.score
  }

  lemma {:induction false} RowsSumToKeys(keys: seq<nat>, rows: seq<Row>, sigs: seq<Signal>, enc: set<int>)
    requires |keys| == |rows|
    requires forall i :: 0 <= i < |keys| ==> RowFor(sigs, enc, keys[i]) == Some(rows[i])
    ensures SumBy(rows, RowScore()) == SumOverKeys(keys, sigs, Contributions(enc))
  {
    if keys != [] {
      RowsSumToKeys(Front(keys), Front(rows), sigs, enc);
      RowMeaning(sigs, enc, Last(keys));
    }
  }

  // ---------------------------------------------------------------- sorting

  predicate Descending(rows: seq<Row>) {
    forall i, j :: 0 <= i < j < |rows| ==> rows[j].score <= rows[i].score
  }

  function Insert(sorted: seq<Row>, row: Row): seq<Row> {
    if sorted == [] || row.score <= Last(sorted).score then sorted + [row]
    else Insert(Front(sorted), row) + [Last(sorted)]
  }

  /** Stable sort by falling score. */
  function SortByScore(rows: seq<Row>): seq<Row> {
    if rows == [] then [] else Insert(SortByScore(Front(rows)), Last(rows))
  }

  lemma {:induction false} InsertPermutes(sorted: seq<Row>, row: Row)
    ensures multiset(Insert(sorted, row)) == multiset(sorted) + multiset{row}
  {
    if sorted != [] && Last(sorted).score < row.score {
      InsertPermutes(Front(sorted), row);
      assert sorted == Front(sorted) + [Last(sorted)];
    }
  }

  lemma {:induction false} InsertAddsScore(sorted: seq<Row>, row: Row)
    ensures SumBy(Insert(sorted, row), RowScore()) == SumBy(sorted, RowScore()) + row.score
  {
    if sorted == [] || row.score <= Last(sorted).score {
      assert Front(sorted + [row]) == sorted;
    } else {
      InsertAddsScore(Front(sorted), row);
      assert Front(Insert(Front(sorted), row) + [Last(sorted)]) == Insert(Front(sorted), row);
    }
  }

  lemma {:induction false} InsertKeepsOrder(sorted: seq<Row>, row: Row)
    requires Descending(sorted)
    ensures Descending(Insert(sorted, row))
    ensures forall r :: r in Insert(sorted, row) ==> r in sorted || r == row
  {
    if sorted != [] && Last(sorted).score < row.score {
      InsertKeepsOrder(Front(sorted), row);
      var rest := Insert(Front(sorted), row);
      forall i | 0 <= i < |rest|
        ensures Last(sorted).score <= rest[i].score
      {
        assert rest[i] in rest;
      }
    }
  }

  lemma {:induction false} SortPermutes(rows: seq<Row>)
    ensures multiset(SortByScore(rows)) == multiset(rows)
  {
    if rows != [] {
      SortPermutes(Front(rows));
      InsertPermutes(SortByScore(Front(rows)), Last(rows));
      assert rows == Front(rows) + [Last(rows)];
    }
  }

  lemma {:induction false} SortDescends(rows: seq<Row>)
    ensures Descending(SortByScore(rows))
  {
    if rows != [] {
      SortDescends(Front(rows));
      InsertKeepsOrder(SortByScore(Front(rows)), Last(rows));
    }
  }

  lemma {:induction false} SortKeepsSum(rows: seq<Row>)
    ensures SumBy(SortByScore(rows), RowScore()) == SumBy(rows, RowScore())
  {
    if rows != [] {
      SortKeepsSum(Front(rows));
      InsertAddsScore(SortByScore(Front(rows)), Last(rows));
    }
  }

  // -------------------------------------------------------------- the view

  /** `rows` are the buckets of `sigs`, one for each key that occurs. */
  ghost predicate BucketsOf(rows: seq<Row>, keys: seq<nat>, sigs: seq<Signal>, enc: set<int>) {
    && Distinct(keys)
    && |rows| == |keys|
    && (forall i :: 0 <= i < |keys| ==> RowFor(sigs, enc, keys[i]) == Some(rows[i]))
    && (forall s :: s in sigs ==> Key(s) in keys)
  }

  /** The rows add up to the score of the signals they were made from. */
  lemma BucketsReconcile(rows: seq<Row>, keys: seq<nat>, sigs: seq<Signal>)
    requires BucketsOf(rows, keys, sigs, EncPids(sigs))
    ensures SumBy(rows, RowScore()) == Score(sigs)
  {
    RowsSumToKeys(keys, rows, sigs, EncPids(sigs));
    BucketsPartitionTheSum(keys, sigs, Contributions(EncPids(sigs)));
  }

  method CollectEncPids(sigs: seq<Signal>) returns (encPids: set<int>)
    ensures encPids == EncPids(sigs)
  {
    encPids := {};
    for i := 0 to |sigs|
      invariant encPids == EncPids(sigs[..i])
    {
      assert Front(sigs[..i + 1]) == sigs[..i];
      var s := sigs[i];
      if Trusted(s) {
        continue;
      }
      if s.name in ENCRYPTION_SIGNAL_NAMES {
        var p := PidOf(s);
        if p.Some? {
          encPids := encPids + {p.value};
        }
      }
    }
    assert sigs[..|sigs|] == sigs;
  }

  /** The buckets after a prefix of the signals, with their keys in order of first appearance. */
  ghost predicate Filled(buckets: map<nat, Row>, order: seq<nat>, sigs: seq<Signal>, enc: set<int>) {
    && Distinct(order)
    && (forall k :: k in order <==> k in buckets)
    && (forall k: nat :: RowFor(sigs, enc, k) == if k in buckets then Some(buckets[k]) else None)
    && (forall s :: s in sigs ==> Key(s) in order)
  }

  lemma FilledSnoc(buckets: map<nat, Row>, order: seq<nat>, sigs: seq<Signal>, enc: set<int>, s: Signal)
    requires Filled(buckets, order, sigs, enc)
    ensures var key := Key(s);
            var row := if key in buckets then buckets[key] else NewRow(s);
            Filled(
              buckets[key := AddTo(row, s, Contribution(s, enc))],
              if key in buckets then order else order + [key],
              sigs + [s],
              enc)
  {
    assert Front(sigs + [s]) == sigs;
  }

  /** What the view's loop adds to the row of one signal. */
  method Contributes(s: Signal, encPids: set<int>) returns (contributes: int)
    ensures contributes == Contribution(s, encPids)
  {
    contributes := s.weight;
    if Trusted(s) {
      contributes := 0;
    } else if s.name in CORRELATION_GATED_NAMES && !CorrelatedWith(s, encPids) {
      contributes := 0;
    }
  }

  /** Put one signal into its bucket, which is opened at its first signal. */
  method PutInBucket(buckets: map<nat, Row>, order: seq<nat>, s: Signal, encPids: set<int>, ghost before: seq<Signal>)
    returns (buckets': map<nat, Row>, order': seq<nat>)
    requires Filled(buckets, order, before, encPids)
    ensures Filled(buckets', order', before + [s], encPids)
  {
    var contributes := Contributes(s, encPids);
    var key := Key(s);
    var row := NewRow(s);
    order' := order;
    if key in buckets {
      row := buckets[key];
    } else {
      order' := order + [key];
    }
    buckets' := buckets[key := AddTo(row, s, contributes)];
    FilledSnoc(buckets, order, before, encPids, s);
  }

  /** Fill the buckets in order of first appearance. */
  method FillBuckets(sigs: seq<Signal>, encPids: set<int>) returns (buckets: map<nat, Row>, order: seq<nat>)
    ensures Filled(buckets, order, sigs, encPids)
  {
    buckets, order := map[], [];
    for i := 0 to |sigs|
      invariant Filled(buckets, order, sigs[..i], encPids)
    {
      buckets, order := PutInBucket(buckets, order, sigs[i], encPids, sigs[..i]);
      assert sigs[..i + 1] == sigs[..i] + [sigs[i]];
    }
    assert sigs[..|sigs|] == sigs;
  }

  method ListRows(buckets: map<nat, Row>, order: seq<nat>) returns (rows: seq<Row>)
    requires forall k :: k in order ==> k in buckets
    ensures |rows| == |order| && forall i :: 0 <= i < |order| ==> rows[i] == buckets[order[i]]
  {
    rows := [];
    for i := 0 to |order|
      invariant |rows| == i && forall j :: 0 <= j < i ==> rows[j] == buckets[order[j]]
    {
      rows := rows + [buckets[order[i]]];
    }
  }

  /** `rows` lists the buckets of `sigs` in falling order of score. */
  ghost predicate IsView(rows: seq<Row>, sigs: seq<Signal>) {
    && Descending(rows)
    && exists buckets, keys ::
         BucketsOf(buckets, keys, sigs, EncPids(sigs)) && multiset(rows) == multiset(buckets)
  }

  method BuildRows(sigs: seq<Signal>) returns (rows: seq<Row>)
    ensures IsView(rows, sigs)
    ensures SumBy(rows, RowScore()) == Score(sigs)
  {
    var encPids := CollectEncPids(sigs);
    var buckets, keys := FillBuckets(sigs, encPids);
    var unsorted := ListRows(buckets, keys);
    rows := SortByScore(unsorted);
    assert BucketsOf(unsorted, keys, sigs, encPids);
    SortPermutes(unsorted);
    SortDescends(unsorted);
    SortKeepsSum(unsorted);
    BucketsReconcile(unsorted, keys, sigs);
  }

  /** The administrator's view: rows in falling order of score, one for each PID. Rows, total and level are computed
      one after another, each from the window as it is at its own reading of the clock. */
  method Breakdown(engine: ScoringEngine, limit: int, atRows: real, atTotal: real, atLevel: real)
    returns (rows: seq<Row>, totalScore: int, level: Severity, ghost seen: seq<Signal>, ghost scored: seq<Signal>)
    requires engine.Valid() && engine.clock <= atRows <= atTotal <= atLevel
    modifies engine`signals, engine`clock
    ensures engine.Valid() && engine.clock == atLevel
    ensures seen == Evict(old(engine.signals), atRows - engine.window)
    ensures scored == Evict(seen, atTotal - engine.window)
    ensures engine.signals == Evict(scored, atLevel - engine.window)
    ensures IsView(rows, EndSlice(seen, limit)) && SumBy(rows, RowScore()) == Score(EndSlice(seen, limit))
    ensures totalScore == Score(scored) && level == LevelForScore(Score(engine.signals))
  {
    var sigs := engine.RecentSignals(limit, atRows);
    seen := engine.signals;
    rows := BuildRows(sigs);
    totalScore := engine.CurrentScore(atTotal);
    scored := engine.signals;
    level := engine.CurrentLevel(atLevel);
  }

  lemma EndOfEnd(window: seq<Signal>, i: nat, j: nat)
    requires i <= j <= |window|
    ensures window[i..][j - i..] == window[j..]
  {
  }

  lemma EvictLeavesEnd(window: seq<Signal>, cutoff: real) returns (k: nat)
    ensures k <= |window| && Evict(window, cutoff) == window[k..]
  {
    k := EvictDropsStalePrefix(window, cutoff);
  }

  /** The signals that the rows show and those that the total counts are two ends of one window, one an end of the
      other: `longer` and `longer[k..]`. When the limit cuts nothing off the rows have the longer one, and when nothing
      expires between the two readings the total has. */
  lemma RowsAndTotalAreEnds(seen: seq<Signal>, limit: int, cutoff: real) returns (longer: seq<Signal>, k: nat)
    ensures k <= |longer|
    ensures var shown, scored := EndSlice(seen, limit), Evict(seen, cutoff);
            && ((shown == longer && scored == longer[k..]) || (scored == longer && shown == longer[k..]))
            && (|seen| <= limit || limit == 0 ==> shown == longer)
            && (scored == seen ==> scored == longer)
    ensures exists i :: 0 <= i <= |seen| && longer == seen[i..]
  {
    var i := |seen| - |EndSlice(seen, limit)|;
    var j := EvictLeavesEnd(seen, cutoff);
    if i <= j {
      longer, k := seen[i..], j - i;
      EndOfEnd(seen, i, j);
    } else {
      longer, k := seen[j..], i - j;
      EndOfEnd(seen, j, i);
    }
  }

  lemma EndIsNonNegative(window: seq<Signal>, i: nat)
    requires i <= |window| && NonNegativeWeights(window)
    ensures NonNegativeWeights(window[i..])
  {
  }

  /** What the reader of the view may rely on. Rows show one end of the window and the total counts another; they agree
      exactly when cutting the longer one down to the shorter loses nothing. */
  lemma ViewReconcilesIff(seen: seq<Signal>, limit: int, cutoff: real) returns (longer: seq<Signal>, k: nat)
    requires NonNegativeWeights(seen)
    ensures k <= |longer|
    ensures var shown, scored := EndSlice(seen, limit), Evict(seen, cutoff);
            && ((shown == longer && scored == longer[k..]) || (scored == longer && shown == longer[k..]))
            && (Score(shown) == Score(scored) <==> CutIsIdle(longer, k))
            && (|seen| <= limit || limit == 0 ==> Score(scored) <= Score(shown))
            && (scored == seen ==> Score(shown) <= Score(scored))
  {
    longer, k := RowsAndTotalAreEnds(seen, limit, cutoff);
    var i :| 0 <= i <= |seen| && longer == seen[i..];
    EndIsNonNegative(seen, i);
    SuffixScoresNoMore(longer, k);
    SuffixScoresTheSameIff(longer, k);
  }
}
