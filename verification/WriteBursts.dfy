/** Per-PID write accounting in tumbling windows, over the writes of one PID. */
module WriteBursts {
  import opened Collections

  const BURST_BYTES: int := 75 * 1024 * 1024
  const BURST_WINDOW: real := 4.0

  datatype Write = Write(time: real, bytes: nat)

  /** The running total, the start of the current window, and the time of the last burst; 0.0 stands for "none" in
      both times. */
  datatype WriteState = WriteState(total: int, start: real, lastBurst: real)

  const INITIAL := WriteState(0, 0.0, 0.0)

  predicate OpensWindow(s: WriteState, w: Write) {
    s.start == 0.0 || w.time - s.start > BURST_WINDOW
  }

  /** The total and the window start once the write has been added. */
  function Accumulate(s: WriteState, w: Write): WriteState {
    if OpensWindow(s, w) then s.(total := w.bytes, start := w.time)
    else s.(total := s.total + w.bytes)
  }

  predicate Bursts(s: WriteState, w: Write) {
    BURST_BYTES <= Accumulate(s, w).total && BURST_WINDOW <= w.time - s.lastBurst
  }

  function Step(s: WriteState, w: Write): WriteState {
    if Bursts(s, w) then WriteState(0, w.time, w.time) else Accumulate(s, w)
  }

  function Run(ws: seq<Write>): WriteState {
    if ws == [] then INITIAL else Step(Run(Front(ws)), Last(ws))
  }

  /** Does the k-th write raise a burst, and with how many bytes? */
  predicate FiresAt(ws: seq<Write>, k: nat)
    requires k < |ws|
  {
    Bursts(Run(ws[..k]), ws[k])
  }

  predicate OpensAt(ws: seq<Write>, k: nat)
    requires k < |ws|
  {
    OpensWindow(Run(ws[..k]), ws[k])
  }

  function ReportedAt(ws: seq<Write>, k: nat): int
    requires k < |ws|
  {
    Accumulate(Run(ws[..k]), ws[k]).total
  }

  lemma RunSnoc(ws: seq<Write>, w: Write)
    ensures Run(ws + [w]) == Step(Run(ws), w)
    ensures FiresAt(ws + [w], |ws|) <==> Bursts(Run(ws), w)
    ensures ReportedAt(ws + [w], |ws|) == Accumulate(Run(ws), w).total
  {
    assert Front(ws + [w]) == ws == (ws + [w])[..|ws|];
  }

  predicate InOrder(ws: seq<Write>) {
    forall i, j :: 0 <= i < j < |ws| ==> ws[i].time <= ws[j].time
  }

  function Bytes(): Write -> int {
    (w: Write) => w.bytes
  }

  function SumBytes(ws: seq<Write>): int {
    SumBy(ws, Bytes())
  }

  lemma SumOfOne(w: Write)
    ensures SumBytes([w]) == w.bytes
  {
    assert Front([w]) == [];
    assert SumBytes([w]) == SumBytes([]) + w.bytes;
  }

  // --------------------------------------------- what a window has counted

  /** The index of the first write that the running total covers. */
  function Covered(ws: seq<Write>): (lo: nat)
    ensures lo <= |ws|
  {
    if ws == [] then 0
    else if Bursts(Run(Front(ws)), Last(ws)) then |ws|
    else if OpensWindow(Run(Front(ws)), Last(ws)) then |ws| - 1
    else Covered(Front(ws))
  }

  /** The index of the first write that a burst at write k would report. */
  function ReportStart(ws: seq<Write>, k: nat): (lo: nat)
    requires k < |ws|
    ensures lo <= k
  {
    if OpensAt(ws, k) then k else Covered(ws[..k])
  }

  lemma {:induction false} TotalCoversSuffix(ws: seq<Write>)
    requires InOrder(ws)
    ensures var s, lo := Run(ws), Covered(ws);
            && s.total == SumBytes(ws[lo..])
            && (lo < |ws| ==> s.start <= ws[lo].time && Last(ws).time - s.start <= BURST_WINDOW)
  {
    if ws != [] {
      TotalCoversSuffix(Front(ws));
      var s, w, lo := Run(Front(ws)), Last(ws), Covered(ws);
      if Bursts(s, w) {
        assert ws[lo..] == [];
      } else if OpensWindow(s, w) {
        assert ws[lo..] == [w];
        SumOfOne(w);
      } else {
        assert Front(ws[lo..]) == Front(ws)[lo..];
      }
    }
  }

  /** Write k is measured by the bytes of a stretch of writes that ends with it and lies within its last 4 seconds. */
  lemma MeasuredIsAStretch(ws: seq<Write>, k: nat)
    requires InOrder(ws) && k < |ws|
    ensures var lo := ReportStart(ws, k);
            && ReportedAt(ws, k) == SumBytes(ws[lo..k + 1])
            && forall i :: lo <= i <= k ==> ws[k].time - BURST_WINDOW <= ws[i].time <= ws[k].time
  {
    var before, s, lo := ws[..k], Run(ws[..k]), ReportStart(ws, k);
    TotalCoversSuffix(before);
    assert Front(ws[lo..k + 1]) == before[lo..];
    assert Last(ws[lo..k + 1]) == ws[k];
    if OpensWindow(s, ws[k]) {
      assert ws[lo..k + 1] == [ws[k]];
      SumOfOne(ws[k]);
    } else if lo < k {
      assert before[lo] == ws[lo];
    }
  }

  /** A burst reports exactly the bytes of such a stretch. */
  lemma BurstReportsItsStretch(ws: seq<Write>, k: nat)
    requires InOrder(ws) && k < |ws| && FiresAt(ws, k)
    ensures var lo := ReportStart(ws, k);
            && ReportedAt(ws, k) == SumBytes(ws[lo..k + 1])
            && BURST_BYTES <= ReportedAt(ws, k)
            && forall i :: lo <= i <= k ==> ws[k].time - BURST_WINDOW <= ws[i].time <= ws[k].time
  {
    MeasuredIsAStretch(ws, k);
  }

  /** Write i has left the running total by the time `end` writes are in: a later one of them opened a window, or
      write i or a later one raised a burst. */
  ghost predicate CutOff(ws: seq<Write>, i: nat, end: nat)
    requires end <= |ws|
  {
    exists m :: i <= m < end && ((i < m && OpensAt(ws, m)) || FiresAt(ws, m))
  }

  lemma SamePrefix(ws: seq<Write>, n: nat, m: nat)
    requires m < n <= |ws|
    ensures FiresAt(ws[..n], m) <==> FiresAt(ws, m)
    ensures OpensAt(ws[..n], m) <==> OpensAt(ws, m)
  {
    assert ws[..n][..m] == ws[..m];
  }

  lemma CutOffPrefix(ws: seq<Write>, i: nat, n: nat)
    requires n <= |ws|
    ensures CutOff(ws[..n], i, n) <==> CutOff(ws, i, n)
  {
    forall m | 0 <= m < n
      ensures FiresAt(ws[..n], m) <==> FiresAt(ws, m)
      ensures OpensAt(ws[..n], m) <==> OpensAt(ws, m)
    {
      SamePrefix(ws, n, m);
    }
  }

  lemma CutOffSnoc(ws: seq<Write>, i: nat, n: nat)
    requires i <= n < |ws|
    ensures CutOff(ws, i, n + 1) <==> CutOff(ws, i, n) || (i < n && OpensAt(ws, n)) || FiresAt(ws, n)
  {
  }

  lemma {:induction false} UncoveredIffCutOff(ws: seq<Write>, i: nat)
    requires i < |ws|
    ensures i < Covered(ws) <==> CutOff(ws, i, |ws|)
  {
    var n := |ws| - 1;
    assert ws[..n] == Front(ws);
    CutOffSnoc(ws, i, n);
    if i < n {
      UncoveredIffCutOff(Front(ws), i);
      CutOffPrefix(ws, i, n);
    }
  }

  /** Write m restarts the window: it opens one, or it raises a burst. */
  predicate RestartsAt(ws: seq<Write>, m: nat)
    requires m < |ws|
  {
    OpensAt(ws, m) || FiresAt(ws, m)
  }

  lemma StartAfter(ws: seq<Write>)
    requires ws != []
    ensures Run(ws).start == if RestartsAt(ws, |ws| - 1) then Last(ws).time else Run(Front(ws)).start
  {
    assert ws[..|ws| - 1] == Front(ws);
  }

  lemma RestartsBefore(ws: seq<Write>, m: nat)
    requires m < |ws| - 1
    ensures RestartsAt(Front(ws), m) <==> RestartsAt(ws, m)
  {
    SamePrefix(ws, |ws| - 1, m);
  }

  /** The window has started at the latest write that restarted it. */
  lemma {:induction false} LatestRestart(ws: seq<Write>) returns (r: nat)
    requires ws != []
    ensures r < |ws| && RestartsAt(ws, r) && Run(ws).start == ws[r].time
    ensures forall m :: r < m < |ws| ==> !RestartsAt(ws, m)
  {
    var n := |ws| - 1;
    StartAfter(ws);
    r := n;
    if n == 0 {
      assert ws[..0] == [];
    } else if !RestartsAt(ws, n) {
      r := LatestRestart(Front(ws));
      RestartsBefore(ws, r);
      forall m | r < m < n
        ensures !RestartsAt(ws, m)
      {
        RestartsBefore(ws, m);
      }
    }
  }

  lemma OpensAfter(s: WriteState, w: Write)
    requires s.start != 0.0
    ensures OpensWindow(s, w) <==> BURST_WINDOW < w.time - s.start
  {
  }

  lemma FirstOpens(ws: seq<Write>)
    requires ws != []
    ensures OpensAt(ws, 0)
  {
    assert ws[..0] == [];
  }

  /** When a write opens a window, read off the history alone: no write of the last 4 s opened one or raised a burst. */
  lemma OpensIff(ws: seq<Write>, k: nat)
    requires InOrder(ws) && k < |ws| && 0.0 < ws[0].time
    ensures OpensAt(ws, k) <==>
            forall m :: 0 <= m < k && RestartsAt(ws, m) ==> BURST_WINDOW < ws[k].time - ws[m].time
  {
    if k == 0 {
      FirstOpens(ws);
    } else {
      var r := LatestRestart(ws[..k]);
      OpensAfter(Run(ws[..k]), ws[k]);
      forall m | 0 <= m < k
        ensures RestartsAt(ws, m) <==> RestartsAt(ws[..k], m)
      {
        SamePrefix(ws, k, m);
      }
      assert RestartsAt(ws, r);
    }
  }

  /** Write i, before write k, is not measured with it: it has been cut off by then, or write k opens a window. */
  ghost predicate LostBefore(ws: seq<Write>, i: nat, k: nat)
    requires i < k < |ws|
  {
    CutOff(ws, i, k) || OpensAt(ws, k)
  }

  lemma UnreportedIffLost(ws: seq<Write>, i: nat, k: nat)
    requires i < k < |ws|
    ensures i < ReportStart(ws, k) <==> LostBefore(ws, i, k)
  {
    UncoveredIffCutOff(ws[..k], i);
    CutOffPrefix(ws, i, k);
  }

  /** A burst reports all the bytes of its last 4 seconds (the writes from f on) exactly when no non-empty write among
      them was lost: a window that is replaced, or a burst, takes its recent bytes with it. */
  lemma BurstReportsLastFourSecondsIff(ws: seq<Write>, k: nat, f: nat)
    requires InOrder(ws) && f <= k < |ws| && FiresAt(ws, k)
    requires forall i :: 0 <= i <= k ==> (f <= i <==> ws[k].time - BURST_WINDOW <= ws[i].time)
    ensures ReportedAt(ws, k) <= SumBytes(ws[f..k + 1])
    ensures ReportedAt(ws, k) == SumBytes(ws[f..k + 1]) <==>
            forall i :: f <= i < k && LostBefore(ws, i, k) ==> ws[i].bytes == 0
  {
    var lo := ReportStart(ws, k);
    BurstReportsItsStretch(ws, k);
    assert ws[k].time - BURST_WINDOW <= ws[lo].time;
    assert ws[f..k + 1] == ws[f..lo] + ws[lo..k + 1];
    SumConcat(ws[f..lo], ws[lo..k + 1], Bytes());
    NothingWritten(ws, f, lo);
    forall i | f <= i < k
      ensures LostBefore(ws, i, k) <==> i < lo
    {
      UnreportedIffLost(ws, i, k);
    }
  }

  lemma NothingWritten(ws: seq<Write>, f: nat, lo: nat)
    requires f <= lo <= |ws|
    ensures 0 <= SumBytes(ws[f..lo])
    ensures SumBytes(ws[f..lo]) == 0 <==> forall i :: f <= i < lo ==> ws[i].bytes == 0
  {
    var part := ws[f..lo];
    SumNonNegative(part, Bytes());
    SumsEqualIff(part, Zero(), Bytes());
    SumOfZero(part);
    assert forall i :: f <= i < lo ==> part[i - f] == ws[i] && ws[i] in part;
  }

  /** It happens: a thousand bytes written 0.2 s before a burst are not in its report, because the window they were
      counted in had been opened 4.1 s before it. */
  lemma BurstCanMissRecentBytes(ws: seq<Write>)
    requires ws == [Write(10.0, 1), Write(13.9, 1000), Write(14.1, BURST_BYTES)]
    ensures InOrder(ws) && FiresAt(ws, 2)
    ensures ReportedAt(ws, 2) == BURST_BYTES && SumBytes(ws[1..3]) == BURST_BYTES + 1000
  {
    var a, b, c := ws[0], ws[1], ws[2];
    assert ws[..0] == [] && ws[..1] == [a] && ws[..2] == [a, b];
    assert Front([a]) == [] && Front([a, b]) == [a];
    assert Run([a]) == WriteState(1, 10.0, 0.0);
    assert Run([a, b]) == WriteState(1001, 10.0, 0.0);
    assert ws[1..3] == [b, c] && Front([b, c]) == [b];
    SumOfOne(b);
    assert SumBytes([b, c]) == SumBytes([b]) + c.bytes;
  }

  lemma {:induction false} AfterBurst(ws: seq<Write>, k: nat)
    requires InOrder(ws) && k < |ws| && FiresAt(ws, k)
    ensures k < Covered(ws) && ws[k].time <= Run(ws).lastBurst
  {
    var n := |ws| - 1;
    assert ws[..n] == Front(ws);
    if k < n {
      assert Front(ws)[..k] == ws[..k];
      AfterBurst(Front(ws), k);
    }
  }

  /** Two bursts of one PID are at least 4 seconds apart, and no write is reported by both. */
  lemma BurstsAreDisjoint(ws: seq<Write>, k: nat, m: nat)
    requires InOrder(ws) && k < m < |ws| && FiresAt(ws, k) && FiresAt(ws, m)
    ensures BURST_WINDOW <= ws[m].time - ws[k].time
    ensures k < ReportStart(ws, m)
  {
    assert ws[..m][..k] == ws[..k];
    AfterBurst(ws[..m], k);
  }

  function TotalReported(ws: seq<Write>): int {
    if ws == [] then 0
    else TotalReported(Front(ws)) +
         if FiresAt(ws, |ws| - 1) then ReportedAt(ws, |ws| - 1) else 0
  }

  /** Bytes are conserved: what the bursts have reported and what is still pending never exceed what was written. */
  lemma {:induction false} ReportedNeverExceedsWritten(ws: seq<Write>)
    ensures TotalReported(ws) + Run(ws).total <= SumBytes(ws)
    ensures 0 <= Run(ws).total
  {
    if ws != [] {
      ReportedNeverExceedsWritten(Front(ws));
    }
  }

  // ------------------------------------------------- what a window can miss

  /** A burst was raised before write i and less than 4 seconds earlier. */
  ghost predicate RecentBurst(ws: seq<Write>, i: nat)
    requires i < |ws|
  {
    exists m :: 0 <= m < i && FiresAt(ws, m) && ws[i].time - ws[m].time < BURST_WINDOW
  }

  lemma {:induction false} LastBurstIsABurst(ws: seq<Write>)
    ensures var s := Run(ws);
            s.lastBurst == 0.0 || exists m :: 0 <= m < |ws| && FiresAt(ws, m) && ws[m].time == s.lastBurst
  {
    if ws != [] {
      LastBurstIsABurst(Front(ws));
      var n := |ws| - 1;
      assert ws[..n] == Front(ws);
      if FiresAt(ws, n) {
        assert ws[n].time == Run(ws).lastBurst;
      } else if Run(ws).lastBurst != 0.0 {
        var m :| 0 <= m < n && FiresAt(Front(ws), m) && ws[m].time == Run(ws).lastBurst;
        assert Front(ws)[..m] == ws[..m];
        assert FiresAt(ws, m);
      }
    }
  }

  /** Since the time `first` no burst was raised and `sum` bytes were written: they are below the threshold if no window
      opened after the first write, and below twice the threshold otherwise. */
  predicate Quiet(s: WriteState, lastBurst: real, first: real, sum: int) {
    && s.lastBurst == lastBurst
    && s.total < BURST_BYTES
    && (sum <= s.total || (first <= s.start && sum < BURST_BYTES + s.total))
  }

  lemma StaysQuiet(s: WriteState, w: Write, first: real, sum: int)
    requires Quiet(s, s.lastBurst, first, sum) && !Bursts(s, w)
    requires BURST_WINDOW <= first <= w.time <= first + BURST_WINDOW && BURST_WINDOW <= first - s.lastBurst
    ensures Quiet(Step(s, w), s.lastBurst, first, sum + w.bytes)
  {
  }

  lemma BeginsQuiet(s: WriteState, w: Write)
    requires !Bursts(s, w) && 0 <= s.total
    requires BURST_WINDOW <= w.time && BURST_WINDOW <= w.time - s.lastBurst
    ensures Quiet(Step(s, w), s.lastBurst, w.time, w.bytes)
  {
  }

  lemma SumSnoc(ws: seq<Write>, i: nat, j: nat)
    requires i <= j < |ws|
    ensures SumBytes(ws[i..j + 1]) == SumBytes(ws[i..j]) + ws[j].bytes
  {
    assert Front(ws[i..j + 1]) == ws[i..j];
  }

  lemma {:induction false} QuietSpan(ws: seq<Write>, i: nat, j: nat)
    requires InOrder(ws) && i <= j < |ws|
    requires BURST_WINDOW <= ws[i].time && ws[j].time - ws[i].time <= BURST_WINDOW
    requires BURST_WINDOW <= ws[i].time - Run(ws[..i]).lastBurst
    requires forall k :: i <= k <= j ==> !FiresAt(ws, k)
    ensures Quiet(Run(ws[..j + 1]), Run(ws[..i]).lastBurst, ws[i].time, SumBytes(ws[i..j + 1]))
  {
    assert ws[..j + 1] == ws[..j] + [ws[j]];
    RunSnoc(ws[..j], ws[j]);
    SumSnoc(ws, i, j);
    assert !FiresAt(ws, j);
    if i < j {
      QuietSpan(ws, i, j - 1);
      StaysQuiet(Run(ws[..j]), ws[j], ws[i].time, SumBytes(ws[i..j]));
    } else {
      ReportedNeverExceedsWritten(ws[..j]);
      assert ws[i..j] == [];
      BeginsQuiet(Run(ws[..j]), ws[j]);
    }
  }

  /** A window opens at most once within 4 seconds, so twice the threshold cannot hide in two windows: writes within
      a 4-second span that total at least 150 MB raise a burst in that span, unless one was raised less than 4 seconds
      before its first write (or the clock reads less than 4 seconds, where "never" looks recent). */
  lemma DoubleThresholdForcesBurst(ws: seq<Write>, i: nat, j: nat)
    requires InOrder(ws) && i <= j < |ws| && ws[j].time - ws[i].time <= BURST_WINDOW
    requires 2 * BURST_BYTES <= SumBytes(ws[i..j + 1])
    ensures || (exists k :: i <= k <= j && FiresAt(ws, k))
            || RecentBurst(ws, i)
            || ws[i].time < BURST_WINDOW
  {
    if (forall k :: i <= k <= j ==> !FiresAt(ws, k)) && !RecentBurst(ws, i) && BURST_WINDOW <= ws[i].time {
      NotDebounced(ws, i);
      QuietSpan(ws, i, j);
    }
  }

  lemma NotDebounced(ws: seq<Write>, i: nat)
    requires i < |ws| && !RecentBurst(ws, i) && BURST_WINDOW <= ws[i].time
    ensures BURST_WINDOW <= ws[i].time - Run(ws[..i]).lastBurst
  {
    LastBurstIsABurst(ws[..i]);
    var last := Run(ws[..i]).lastBurst;
    if last != 0.0 {
      var m :| 0 <= m < i && FiresAt(ws[..i], m) && ws[..i][m].time == last;
      assert ws[..i][..m] == ws[..m];
      assert FiresAt(ws, m);
    }
  }

  /** The zero that stands for "no burst yet" makes the first 4 seconds of the clock look debounced. */
  lemma {:induction false} NoBurstBeforeWindow(ws: seq<Write>, k: nat)
    requires k < |ws| && FiresAt(ws, k)
    ensures BURST_WINDOW <= ws[k].time
  {
    var last := Run(ws[..k]).lastBurst;
    LastBurstIsABurst(ws[..k]);
    if last != 0.0 {
      var m :| 0 <= m < k && FiresAt(ws[..k], m) && ws[..k][m].time == last;
      NoBurstBeforeWindow(ws[..k], m);
    }
  }

  /** When a write raises a burst, read off the history alone: the clock has reached 4 s, no burst is less than 4 s old,
      and the writes measured with it reach the threshold. */
  lemma FiresIff(ws: seq<Write>, k: nat)
    requires InOrder(ws) && k < |ws|
    ensures FiresAt(ws, k) <==>
            && 4.0 <= ws[k].time
            && (forall m :: 0 <= m < k && FiresAt(ws, m) ==> 4.0 <= ws[k].time - ws[m].time)
            && 75 * 1024 * 1024 <= SumBytes(ws[ReportStart(ws, k)..k + 1])
  {
    MeasuredIsAStretch(ws, k);
    if FiresAt(ws, k) {
      NoBurstBeforeWindow(ws, k);
      forall m | 0 <= m < k && FiresAt(ws, m)
        ensures BURST_WINDOW <= ws[k].time - ws[m].time
      {
        BurstsAreDisjoint(ws, m, k);
      }
    } else if BURST_WINDOW <= ws[k].time && !RecentBurst(ws, k) {
      NotDebounced(ws, k);
    }
  }

  /** So a span of writes that starts undebounced raises a burst exactly when the writes measured with one of them
      reach the threshold. */
  lemma SpanFiresIff(ws: seq<Write>, i: nat, j: nat)
    requires InOrder(ws) && i <= j < |ws| && BURST_WINDOW <= ws[i].time && !RecentBurst(ws, i)
    ensures (exists k :: i <= k <= j && FiresAt(ws, k)) <==>
            exists k :: i <= k <= j && BURST_BYTES <= SumBytes(ws[ReportStart(ws, k)..k + 1])
  {
    forall k | i <= k <= j
      ensures FiresAt(ws, k) ==> BURST_BYTES <= SumBytes(ws[ReportStart(ws, k)..k + 1])
    {
      FiresIff(ws, k);
    }
    if k :| i <= k <= j && BURST_BYTES <= SumBytes(ws[ReportStart(ws, k)..k + 1]) {
      FiresIff(ws, k);
      if RecentBurst(ws, k) {
        var m :| 0 <= m < k && FiresAt(ws, m) && ws[k].time - ws[m].time < BURST_WINDOW;
        assert i <= m;
      }
    }
  }

  /** The factor of two is needed: a page, 75 MB less a page and a byte, and 75 MB less a byte pass unreported,
      although the last two are half a second apart. */
  lemma SingleThresholdCanHide()
    ensures var ws := [Write(10.0, 4096), Write(14.0, BURST_BYTES - 4097), Write(14.5, BURST_BYTES - 1)];
            && InOrder(ws) && ws[2].time - ws[1].time <= BURST_WINDOW
            && SumBytes(ws[1..]) == 2 * BURST_BYTES - 4098
            && forall k :: 0 <= k < 3 ==> !FiresAt(ws, k)
  {
    var a, b, c := Write(10.0, 4096), Write(14.0, BURST_BYTES - 4097), Write(14.5, BURST_BYTES - 1);
    var ws := [a, b, c];
    assert ws[..0] == [] && ws[..1] == [a] && ws[..2] == [a, b];
    assert Front([a]) == [] && Front([a, b]) == [a];
    assert Run([a]) == WriteState(4096, 10.0, 0.0);
    assert Run([a, b]) == WriteState(BURST_BYTES - 1, 10.0, 0.0);
    assert ws[1..] == [b, c] && Front([b, c]) == [b];
    SumOfOne(b);
    assert SumBytes([b, c]) == SumBytes([b]) + c.bytes;
  }
}
