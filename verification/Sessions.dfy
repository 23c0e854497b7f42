/** Isolating the last session of a recorded signal list, by a forward and by a backward scan. */
module Sessions {
  import opened Collections
  import opened GapSplit

  const SESSION_GAP_SECONDS: real := 300.0

  datatype Recorded = Recorded(timestamp: real, payload: string)

  function Stamped(): Recorded -> real {
    (s: Recorded) => s.timestamp
  }

  /** The last group of the split at five-minute gaps, by a forward scan that remembers the latest gap. */
  method IsolateLastSession(signals: seq<Recorded>) returns (session: seq<Recorded>)
    ensures session == LastGroup(signals, Stamped(), 300.0)
  {
    if signals == [] {
      return signals;
    }
    var start := 0;
    for i := 1 to |signals|
      invariant start < i
      invariant 0 < start ==> GapBefore(signals, start, Stamped(), SESSION_GAP_SECONDS)
      invariant forall j :: start < j < i ==> !GapBefore(signals, j, Stamped(), SESSION_GAP_SECONDS)
    {
      var gap := signals[i].timestamp - signals[i - 1].timestamp;
      if gap > SESSION_GAP_SECONDS {
        start := i;
      }
    }
    LastGroupStartsAtLastGap(signals, start, Stamped(), SESSION_GAP_SECONDS);
    return signals[start..];
  }

  /** The same by a backward scan that stops at the first gap found. Both scans agree on every list, sorted or not. */
  method LastSessionBackward(signals: seq<Recorded>) returns (session: seq<Recorded>)
    ensures session == LastGroup(signals, Stamped(), 300.0)
  {
    if signals == [] {
      return [];
    }
    var cut := 0;
    for i := |signals| downto 1
      invariant cut == 0
      invariant forall j :: i <= j < |signals| ==> !GapBefore(signals, j, Stamped(), SESSION_GAP_SECONDS)
    {
      if signals[i].timestamp - signals[i - 1].timestamp > SESSION_GAP_SECONDS {
        cut := i;
        break;
      }
    }
    LastGroupStartsAtLastGap(signals, cut, Stamped(), SESSION_GAP_SECONDS);
    return signals[cut..];
  }
}
