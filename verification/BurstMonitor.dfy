/** The bridge's per-PID accounting, in place: one record of counters per PID and one table of burst times. */
module BurstMonitor {
  import opened Collections
  import opened SlidingWindow
  import W = WriteBursts
  import N = RenameBursts

  datatype PidIoState = PidIoState(writeTotal: int, writeWindowStart: real, renameTimes: seq<real>)

  /** Write and rename bursts are debounced separately. */
  datatype AlertKey = WriteAlert(pid: int) | RenameAlert(pid: int)

  const FRESH := PidIoState(0, 0.0, [])

  datatype Burst = WriteBurst(pid: int, bytes: int) | RenameBurst(pid: int, count: nat)

  function HistoryOf<T>(h: map<int, seq<T>>, pid: int): seq<T> {
    if pid in h then h[pid] else []
  }

  class Monitor {
    var pids: map<int, PidIoState>
    var burstAlerted: map<AlertKey, real>

    /** Everything ever accounted, by PID. */
    ghost var writes: map<int, seq<W.Write>>
    ghost var renames: map<int, seq<real>>

    function StateOf(pid: int): PidIoState
      reads this`pids
    {
      if pid in pids then pids[pid] else FRESH
    }

    function LastAlert(key: AlertKey): real
      reads this`burstAlerted
    {
      if key in burstAlerted then burstAlerted[key] else 0.0
    }

    ghost function WriteView(pid: int): W.WriteState
      reads this`pids, this`burstAlerted
    {
      W.WriteState(StateOf(pid).writeTotal, StateOf(pid).writeWindowStart, LastAlert(WriteAlert(pid)))
    }

    ghost function RenameView(pid: int): N.RenameState
      reads this`pids, this`burstAlerted
    {
      N.RenameState(StateOf(pid).renameTimes, LastAlert(RenameAlert(pid)))
    }

    /** The counters of every PID are what its own history yields, whatever the other PIDs did. */
    ghost predicate Valid()
      reads this
    {
      && (forall pid: int :: WriteView(pid) == W.Run(HistoryOf(writes, pid)))
      && (forall pid: int :: RenameView(pid) == N.Run(HistoryOf(renames, pid)))
    }

    constructor ()
      ensures Valid() && writes == map[] && renames == map[]
    {
      pids, burstAlerted := map[], map[];
      writes, renames := map[], map[];
    }

    /** No PID other than this one is affected. */
    twostate predicate OthersUnchanged(pid: int)
      reads this`pids, this`burstAlerted
    {
      forall q: int :: q != pid ==> WriteView(q) == old(WriteView(q)) && RenameView(q) == old(RenameView(q))
    }

    method AccountWrite(pid: int, bytes: nat, now: real) returns (burst: Option<Burst>)
      modifies this`pids, this`burstAlerted
      ensures WriteView(pid) == W.Step(old(WriteView(pid)), W.Write(now, bytes))
      ensures RenameView(pid) == old(RenameView(pid)) && OthersUnchanged(pid)
      ensures burst == if W.Bursts(old(WriteView(pid)), W.Write(now, bytes))
                       then Some(WriteBurst(pid, W.Accumulate(old(WriteView(pid)), W.Write(now, bytes)).total))
                       else None
    {
      var state := StateOf(pid);
      if state.writeWindowStart == 0.0 || now - state.writeWindowStart > W.BURST_WINDOW {
        state := state.(writeWindowStart := now, writeTotal := 0);
      }
      state := state.(writeTotal := state.writeTotal + bytes);
      pids := pids[pid := state];
      if state.writeTotal < W.BURST_BYTES {
        return None;
      }
      if now - LastAlert(WriteAlert(pid)) < W.BURST_WINDOW {
        return None;
      }
      burstAlerted := burstAlerted[WriteAlert(pid) := now];
      burst := Some(WriteBurst(pid, state.writeTotal));
      pids := pids[pid := state.(writeTotal := 0, writeWindowStart := now)];
    }

    method AccountRename(pid: int, now: real) returns (burst: Option<Burst>)
      modifies this`pids, this`burstAlerted
      ensures RenameView(pid) == N.Step(old(RenameView(pid)), now)
      ensures WriteView(pid) == old(WriteView(pid)) && OthersUnchanged(pid)
      ensures burst == if N.Bursts(old(RenameView(pid)), now)
                       then Some(RenameBurst(pid, |N.Enqueue(old(RenameView(pid)), now)|))
                       else None
    {
      var state := StateOf(pid);
      var times := PopOld(state.renameTimes + [now], now - N.BURST_WINDOW);
      pids := pids[pid := state.(renameTimes := times)];
      if |times| < N.BURST_COUNT {
        return None;
      }
      if now - LastAlert(RenameAlert(pid)) < N.BURST_WINDOW {
        return None;
      }
      burstAlerted := burstAlerted[RenameAlert(pid) := now];
      burst := Some(RenameBurst(pid, |times|));
      pids := pids[pid := state.(renameTimes := [])];
    }

    /** A write event: what it raises is decided by the PID's own write history. */
    method HandleWrite(pid: int, bytes: nat, now: real) returns (burst: Option<Burst>)
      requires Valid()
      modifies this
      ensures Valid()
      ensures writes == old(writes)[pid := HistoryOf(old(writes), pid) + [W.Write(now, bytes)]]
      ensures renames == old(renames)
      ensures var ws := HistoryOf(writes, pid);
              burst == if W.FiresAt(ws, |ws| - 1) then Some(WriteBurst(pid, W.ReportedAt(ws, |ws| - 1))) else None
    {
      ghost var w, history := W.Write(now, bytes), HistoryOf(writes, pid);
      burst := AccountWrite(pid, bytes, now);
      writes := writes[pid := history + [w]];
      W.RunSnoc(history, w);
    }

    /** A rename event, likewise. */
    method HandleRename(pid: int, now: real) returns (burst: Option<Burst>)
      requires Valid()
      modifies this
      ensures Valid()
      ensures renames == old(renames)[pid := HistoryOf(old(renames), pid) + [now]]
      ensures writes == old(writes)
      ensures var h := HistoryOf(renames, pid);
              burst == if N.FiresAt(h, |h| - 1) then Some(RenameBurst(pid, N.CountAt(h, |h| - 1))) else None
    {
      ghost var history := HistoryOf(renames, pid);
      N.RunSnoc(history, now);
      burst := AccountRename(pid, now);
      assert RenameView(pid) == N.Run(history + [now]);
      renames := renames[pid := history + [now]];
    }
  }
}
