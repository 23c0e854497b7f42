/** The kernel side of the quarantine protocol: two bounded PID tables, a command dispatcher, the client port and
    the file-operation filters. */
module Driver {
  import opened Collections

  newtype ULONG = x: int | 0 <= x < 0x1_0000_0000

  const RG_MAX_QUARANTINED := 256
  const RG_MAX_PROTECTED := 16
  const RG_PROTOCOL_VERSION: ULONG := 2

  datatype Status =
    | STATUS_SUCCESS
    | STATUS_INSUFFICIENT_RESOURCES
    | STATUS_INVALID_PARAMETER
    | STATUS_REVISION_MISMATCH
    | STATUS_ALREADY_REGISTERED
    | STATUS_ACCESS_DENIED
    | EXCEPTION(code: ULONG)         // the code of a fault on the caller's memory

  datatype Command = Command(version: ULONG, kind: ULONG, processId: ULONG)

  const CMD_QUARANTINE: ULONG := 1
  const CMD_RELEASE: ULONG := 2
  const CMD_PING: ULONG := 3
  const CMD_PROTECT: ULONG := 4
  const CMD_UNPROTECT: ULONG := 5
  const CMD_FLUSH: ULONG := 6

  /** The caller's buffers: missing or too short, usable, or faulting when they are touched. */
  datatype InputBuffer = Readable(cmd: Command) | NoInput | ReadFaults(code: ULONG)

  datatype OutputBuffer = Writable | NoOutput | WriteFaults(code: ULONG)

  datatype InfoClass =
    | FileRenameInformation
    | FileRenameInformationEx
    | FileDispositionInformation
    | FileDispositionInformationEx
    | OtherInformation(code: int)

  datatype FileOp = WriteOp | SetInfoOp(info: InfoClass)

  datatype Requestor = KernelMode | UserMode

  /** Pass: the operation goes on unobserved or observed; Denied: it is completed with access denied. */
  datatype Verdict = Pass | Denied

  // ------------------------------------------------------ abstract machine

  /** The driver's state as user mode can observe it. */
  datatype KernelState = KernelState(
    quarantined: set<ULONG>,
    protectedPids: set<ULONG>,
    client: Option<nat>)

  const LOADED := KernelState({}, {}, None)

  function AddTo(table: set<ULONG>, capacity: nat, pid: ULONG): (set<ULONG>, Status) {
    if pid in table then (table, STATUS_SUCCESS)
    else if capacity <= |table| then (table, STATUS_INSUFFICIENT_RESOURCES)
    else (table + {pid}, STATUS_SUCCESS)
  }

  /** One command, as the dispatcher carries it out; a command of another protocol version changes nothing. */
  function Dispatch(k: KernelState, cmd: Command): (KernelState, Status) {
    if cmd.version != RG_PROTOCOL_VERSION then (k, STATUS_REVISION_MISMATCH)
    else if cmd.kind == CMD_QUARANTINE then
      var (table, status) := AddTo(k.quarantined, RG_MAX_QUARANTINED, cmd.processId);
      (k.(quarantined := table), status)
    else if cmd.kind == CMD_RELEASE then (k.(quarantined := k.quarantined - {cmd.processId}), STATUS_SUCCESS)
    else if cmd.kind == CMD_PROTECT then
      if cmd.processId == 0 then (k, STATUS_INVALID_PARAMETER)
      else
        var (table, status) := AddTo(k.protectedPids, RG_MAX_PROTECTED, cmd.processId);
        (k.(protectedPids := table), status)
    else if cmd.kind == CMD_UNPROTECT then
      (k.(protectedPids := k.protectedPids - {cmd.processId}), STATUS_SUCCESS)
    else if cmd.kind == CMD_FLUSH then (k.(quarantined := {}), STATUS_SUCCESS)
    else if cmd.kind == CMD_PING then (k, STATUS_SUCCESS)
    else (k, STATUS_INVALID_PARAMETER)
  }

  predicate MutatesFile(op: FileOp) {
    op.WriteOp? || !op.info.OtherInformation?
  }

  function FilterOp(k: KernelState, mode: Requestor, pid: ULONG, op: FileOp): Verdict {
    if mode.UserMode? && MutatesFile(op) && pid in k.quarantined then Denied else Pass
  }

  // ----------------------------------------------------------------- runs

  datatype Event =
    | Connect(port: nat)
    | Disconnect
    | Message(input: InputBuffer)
    | ProcessExit(exited: ULONG)
    | FileAccess(mode: Requestor, pid: ULONG, op: FileOp)
    | Reload                       // unload and load again

  function Step(k: KernelState, e: Event): KernelState {
    match e
    case Connect(port) => if k.client.None? then k.(client := Some(port)) else k
    case Disconnect => k.(client := None)
    case Message(input) => if input.Readable? then Dispatch(k, input.cmd).0 else k
    case ProcessExit(_) => k
    case FileAccess(_, _, _) => k
    case Reload => LOADED
  }

  function Run(events: seq<Event>): KernelState {
    if events == [] then LOADED else Step(Run(Front(events)), Last(events))
  }

  datatype Table = Quarantine | Protection

  function PidsIn(k: KernelState, t: Table): set<ULONG> {
    if t.Quarantine? then k.quarantined else k.protectedPids
  }

  /** In state k, the event is a command to enter `pid` in the table that the driver answers with success. */
  predicate Acknowledges(k: KernelState, e: Event, t: Table, pid: ULONG) {
    && e.Message? && e.input.Readable?
    && e.input.cmd.kind == (if t.Quarantine? then CMD_QUARANTINE else CMD_PROTECT) && e.input.cmd.processId == pid
    && Dispatch(k, e.input.cmd).1 == STATUS_SUCCESS
  }

  /** The events that take a PID out of the table: its release (or unprotection), a reload, and for the quarantine
      table a flush. */
  predicate Ends(e: Event, t: Table, pid: ULONG) {
    || e.Reload?
    || (&& e.Message? && e.input.Readable? && e.input.cmd.version == RG_PROTOCOL_VERSION
        && var cmd := e.input.cmd;
           || (t.Quarantine? && cmd.kind == CMD_FLUSH)
           || (t.Quarantine? && cmd.kind == CMD_RELEASE && cmd.processId == pid)
           || (t.Protection? && cmd.kind == CMD_UNPROTECT && cmd.processId == pid))
  }

  /** The i-th event is an acknowledged entry of `pid` and none after it ended it. */
  ghost predicate HeldSince(events: seq<Event>, i: nat, t: Table, pid: ULONG)
    requires i < |events|
  {
    && Acknowledges(Run(events[..i]), events[i], t, pid)
    && forall j :: i < j < |events| ==> !Ends(events[j], t, pid)
  }

  lemma StepMembership(k: KernelState, e: Event, t: Table, pid: ULONG)
    ensures pid in PidsIn(Step(k, e), t) <==>
            Acknowledges(k, e, t, pid) || (pid in PidsIn(k, t) && !Ends(e, t, pid))
  {
  }

  lemma HeldSinceFront(events: seq<Event>, i: nat, t: Table, pid: ULONG)
    requires i < |events| - 1
    ensures HeldSince(events, i, t, pid) <==> HeldSince(Front(events), i, t, pid) && !Ends(Last(events), t, pid)
  {
    assert events[..i] == Front(events)[..i];
  }

  /** In every run each table holds exactly the PIDs whose acknowledged entry has not ended since. */
  lemma {:induction false} TableHoldsAcknowledged(events: seq<Event>, t: Table, pid: ULONG)
    ensures pid in PidsIn(Run(events), t) <==> exists i :: 0 <= i < |events| && HeldSince(events, i, t, pid)
  {
    if events != [] {
      var front, n := Front(events), |events| - 1;
      TableHoldsAcknowledged(front, t, pid);
      StepMembership(Run(front), events[n], t, pid);
      forall i | 0 <= i < n
        ensures HeldSince(events, i, t, pid) <==> HeldSince(front, i, t, pid) && !Ends(events[n], t, pid)
      {
        HeldSinceFront(events, i, t, pid);
      }
      assert HeldSince(events, n, t, pid) <==> Acknowledges(Run(front), events[n], t, pid);
    }
  }

  /** The event is a well-formed command of the driver's own protocol version. */
  predicate Commands(e: Event, kind: ULONG, pid: ULONG) {
    e == Message(Readable(Command(2, kind, pid)))
  }

  /** Sticky quarantine, in every run: a user-mode write, rename or delete is denied exactly when its PID was
      quarantined (command 1, with room in the table or the PID in it) and no release of it (command 2), flush
      (command 6) or reload has come since. Disconnects, reconnects, malformed or foreign commands, other PIDs and the
      exit of the process itself are all irrelevant, and no other operation is ever denied. */
  lemma DeniedIffQuarantineHeld(events: seq<Event>, mode: Requestor, pid: ULONG, op: FileOp)
    ensures FilterOp(Run(events), mode, pid, op) == Denied <==>
            && mode == UserMode
            && (|| op == WriteOp
                || op == SetInfoOp(FileRenameInformation) || op == SetInfoOp(FileRenameInformationEx)
                || op == SetInfoOp(FileDispositionInformation) || op == SetInfoOp(FileDispositionInformationEx))
            && exists i :: 0 <= i < |events| && QuarantinedSince(events, i, pid)
  {
    TableHoldsAcknowledged(events, Quarantine, pid);
    forall i | 0 <= i < |events|
      ensures QuarantinedSince(events, i, pid) <==> HeldSince(events, i, Quarantine, pid)
    {
      QuarantinedIsHeld(events, i, pid);
    }
  }

  /** The i-th event quarantined the PID, and nothing after it released the PID or emptied the table. */
  ghost predicate QuarantinedSince(events: seq<Event>, i: nat, pid: ULONG)
    requires i < |events|
  {
    && Commands(events[i], 1, pid)
    && (pid in Run(events[..i]).quarantined || |Run(events[..i]).quarantined| < 256)
    && forall j :: i < j < |events| ==> !Unblocks(events[j], pid)
  }

  predicate Unblocks(e: Event, pid: ULONG) {
    || e == Reload
    || Commands(e, 2, pid)
    || (e.Message? && e.input.Readable? && Commands(e, 6, e.input.cmd.processId))
  }

  lemma UnblocksIsEnds(e: Event, pid: ULONG)
    ensures Unblocks(e, pid) <==> Ends(e, Quarantine, pid)
  {
  }

  lemma QuarantinedIsHeld(events: seq<Event>, i: nat, pid: ULONG)
    requires i < |events|
    ensures QuarantinedSince(events, i, pid) <==> HeldSince(events, i, Quarantine, pid)
  {
    forall j | i < j < |events|
      ensures Unblocks(events[j], pid) <==> Ends(events[j], Quarantine, pid)
    {
      UnblocksIsEnds(events[j], pid);
    }
  }

  /** The protection table likewise: a PID is in it exactly when it was protected (command 4, never PID 0, with room in
      the table or the PID in it) and no unprotection of it (command 5) or reload has come since. */
  lemma ProtectedIffHeld(events: seq<Event>, pid: ULONG)
    ensures pid in Run(events).protectedPids <==>
            exists i :: 0 <= i < |events| && ProtectedSince(events, i, pid)
  {
    TableHoldsAcknowledged(events, Protection, pid);
    forall i | 0 <= i < |events|
      ensures ProtectedSince(events, i, pid) <==> HeldSince(events, i, Protection, pid)
    {
      ProtectedIsHeld(events, i, pid);
    }
  }

  ghost predicate ProtectedSince(events: seq<Event>, i: nat, pid: ULONG)
    requires i < |events|
  {
    && pid != 0 && Commands(events[i], 4, pid)
    && (pid in Run(events[..i]).protectedPids || |Run(events[..i]).protectedPids| < 16)
    && forall j :: i < j < |events| ==> events[j] != Reload && !Commands(events[j], 5, pid)
  }

  lemma ProtectedIsHeld(events: seq<Event>, i: nat, pid: ULONG)
    requires i < |events|
    ensures ProtectedSince(events, i, pid) <==> HeldSince(events, i, Protection, pid)
  {
    forall j | i < j < |events|
      ensures events[j] != Reload && !Commands(events[j], 5, pid) <==> !Ends(events[j], Protection, pid)
    {
    }
  }

  /** What the driver replies to each command: success to a release, an unprotection, a flush and a ping, and to a
      quarantine or a protection unless it is new and the table full; an error to protecting PID 0, to an unknown
      command, and to every command of another protocol version. */
  lemma RepliesExactly(k: KernelState, cmd: Command)
    ensures var status := Dispatch(k, cmd).1;
            && (status == STATUS_REVISION_MISMATCH <==> cmd.version != 2)
            && (status == STATUS_SUCCESS <==>
                && cmd.version == 2
                && (|| cmd.kind == 2 || cmd.kind == 3 || cmd.kind == 5 || cmd.kind == 6
                    || (cmd.kind == 1 && (cmd.processId in k.quarantined || |k.quarantined| < 256))
                    || (cmd.kind == 4 && cmd.processId != 0
                        && (cmd.processId in k.protectedPids || |k.protectedPids| < 16))))
            && (status == STATUS_INSUFFICIENT_RESOURCES <==>
                && cmd.version == 2
                && (|| (cmd.kind == 1 && cmd.processId !in k.quarantined && 256 <= |k.quarantined|)
                    || (cmd.kind == 4 && cmd.processId != 0
                        && cmd.processId !in k.protectedPids && 16 <= |k.protectedPids|)))
            && (status == STATUS_INVALID_PARAMETER <==>
                cmd.version == 2 && ((cmd.kind == 4 && cmd.processId == 0) || cmd.kind == 0 || 6 < cmd.kind))
  {
  }

  /** The port has at most one client: it is the one that connected first since the last disconnect or reload. */
  lemma {:induction false} ClientIsFirstConnected(events: seq<Event>, port: nat)
    ensures Run(events).client == Some(port) <==> exists i :: 0 <= i < |events| && ConnectedSince(events, i, port)
  {
    if events != [] {
      var front, n := Front(events), |events| - 1;
      ClientIsFirstConnected(front, port);
      assert events[..n] == front;
      forall i | 0 <= i < n
        ensures ConnectedSince(events, i, port) <==>
                ConnectedSince(front, i, port) && events[n] != Disconnect && events[n] != Reload
      {
        assert events[..i] == front[..i];
      }
      assert ConnectedSince(events, n, port) <==> events[n] == Connect(port) && Run(front).client == None;
    }
  }

  /** The i-th event connected the port while no other was, and nothing has ended that since. */
  ghost predicate ConnectedSince(events: seq<Event>, i: nat, port: nat)
    requires i < |events|
  {
    && events[i] == Connect(port) && Run(events[..i]).client == None
    && forall j :: i < j < |events| ==> events[j] != Disconnect && events[j] != Reload
  }

  /** A quarantine command fails only for a new PID while the table is full. */
  lemma QuarantineFailsIffFull(k: KernelState, pid: ULONG)
    ensures var (k', status) := Dispatch(k, Command(RG_PROTOCOL_VERSION, CMD_QUARANTINE, pid));
            && (status == STATUS_SUCCESS <==> pid in k'.quarantined)
            && (status != STATUS_SUCCESS <==> pid !in k.quarantined && RG_MAX_QUARANTINED <= |k.quarantined|)
            && (status != STATUS_SUCCESS ==> k' == k && status == STATUS_INSUFFICIENT_RESOURCES)
  {
  }

  /** No run overfills either table. */
  lemma {:induction false} TablesStayBounded(events: seq<Event>)
    ensures |Run(events).quarantined| <= RG_MAX_QUARANTINED
    ensures |Run(events).protectedPids| <= RG_MAX_PROTECTED && 0 !in Run(events).protectedPids
  {
    if events != [] {
      TablesStayBounded(Front(events));
      if Last(events).Message? && Last(events).input.Readable? {
        DispatchKeepsBounds(Run(Front(events)), Last(events).input.cmd);
      }
    }
  }

  predicate Bounded(k: KernelState) {
    |k.quarantined| <= RG_MAX_QUARANTINED && |k.protectedPids| <= RG_MAX_PROTECTED && 0 !in k.protectedPids
  }

  lemma AddKeepsBound(table: set<ULONG>, capacity: nat, pid: ULONG)
    requires |table| <= capacity
    ensures |AddTo(table, capacity, pid).0| <= capacity
    ensures AddTo(table, capacity, pid).0 <= table + {pid}
  {
  }

  lemma DispatchKeepsBounds(k: KernelState, cmd: Command)
    requires Bounded(k)
    ensures Bounded(Dispatch(k, cmd).0)
  {
    if cmd.kind == CMD_QUARANTINE {
      AddKeepsBound(k.quarantined, RG_MAX_QUARANTINED, cmd.processId);
    } else if cmd.kind == CMD_RELEASE {
      SubsetSize(k.quarantined - {cmd.processId}, k.quarantined);
    } else if cmd.kind == CMD_PROTECT {
      AddKeepsBound(k.protectedPids, RG_MAX_PROTECTED, cmd.processId);
    } else if cmd.kind == CMD_UNPROTECT {
      SubsetSize(k.protectedPids - {cmd.processId}, k.protectedPids);
    }
  }

  lemma SubsetSize(a: set<ULONG>, b: set<ULONG>)
    requires a <= b
    ensures |a| <= |b|
  {
    assert b == a + (b - a);
  }

  // ---------------------------------------------------- array-backed table

  function SetOf(s: seq<ULONG>): set<ULONG> {
    set x | x in s
  }

  lemma {:induction false} DistinctSize(s: seq<ULONG>)
    requires Distinct(s)
    ensures |SetOf(s)| == |s|
  {
    if s != [] {
      DistinctSize(Front(s));
      assert SetOf(s) == SetOf(Front(s)) + {Last(s)};
    }
  }

  /** Overwriting slot i with the last slot and dropping the last removes exactly the value of slot i. */
  lemma SwapRemove(s: seq<ULONG>, i: nat)
    requires i < |s| && Distinct(s)
    ensures var s' := Front(s[i := Last(s)]);
            Distinct(s') && SetOf(s') == SetOf(s) - {s[i]}
  {
    var s' := Front(s[i := Last(s)]);
    forall x | x in SetOf(s) - {s[i]}
      ensures x in SetOf(s')
    {
      var j :| 0 <= j < |s| && s[j] == x;
      assert s'[if j == |s| - 1 then i else j] == x;
    }
  }

  /** A fixed array whose first `count` slots hold a set of PIDs without duplicates. */
  class PidTable {
    const pids: array<ULONG>
    var count: nat

    ghost predicate Valid()
      reads this, pids
    {
      count <= pids.Length && Distinct(pids[..count])
    }

    ghost function Contents(): set<ULONG>
      requires Valid()
      reads this, pids
    {
      SetOf(pids[..count])
    }

    constructor (capacity: nat)
      ensures Valid() && fresh(pids) && pids.Length == capacity && Contents() == {}
    {
      pids := new ULONG[capacity];
      count := 0;
    }

    method Contains(pid: ULONG) returns (found: bool)
      requires Valid()
      ensures found == (pid in Contents())
    {
      found := false;
      var i := 0;
      while i < count
        invariant i <= count
        invariant pid !in pids[..i]
      {
        if pids[i] == pid {
          found := true;
          break;
        }
        i := i + 1;
      }
      assert found ==> pids[..count][i] == pid;
    }

    method Add(pid: ULONG) returns (status: Status)
      requires Valid()
      modifies this`count, pids
      ensures Valid()
      ensures (Contents(), status) == AddTo(old(Contents()), pids.Length, pid)
    {
      status := STATUS_SUCCESS;
      var present := Contains(pid);
      DistinctSize(pids[..count]);
      if !present {
        if count >= pids.Length {
          status := STATUS_INSUFFICIENT_RESOURCES;
        } else {
          pids[count] := pid;
          count := count + 1;
          assert pids[..count] == old(pids[..count]) + [pid];
          assert SetOf(pids[..count]) == SetOf(old(pids[..count])) + {pid};
        }
      }
    }

    method Remove(pid: ULONG)
      requires Valid()
      modifies this`count, pids
      ensures Valid() && Contents() == old(Contents()) - {pid}
    {
      var i := 0;
      while i < count
        invariant i <= count == old(count)
        invariant pids[..] == old(pids[..])
        invariant pid !in pids[..i]
      {
        if pids[i] == pid {
          SwapRemove(pids[..count], i);
          count := count - 1;
          pids[i] := pids[count];
          assert pids[..count] == Front(old(pids[..count])[i := Last(old(pids[..count]))]);
          return;
        }
        i := i + 1;
      }
    }

    method Flush()
      requires Valid()
      modifies this`count
      ensures Valid() && Contents() == {}
    {
      count := 0;
    }
  }

  // ------------------------------------------------------------ the driver

  class MiniFilter {
    var clientPort: Option<nat>
    const quarantine: PidTable
    const protection: PidTable

    ghost predicate Valid()
      reads this, quarantine, protection, quarantine.pids, protection.pids
    {
      && quarantine != protection && quarantine.pids != protection.pids
      && quarantine.Valid() && quarantine.pids.Length == RG_MAX_QUARANTINED
      && protection.Valid() && protection.pids.Length == RG_MAX_PROTECTED
    }

    ghost function View(): KernelState
      requires Valid()
      reads this, quarantine, protection, quarantine.pids, protection.pids
    {
      KernelState(quarantine.Contents(), protection.Contents(), clientPort)
    }

    constructor ()
      ensures Valid() && fresh(quarantine) && fresh(protection) && fresh(quarantine.pids) && fresh(protection.pids)
      ensures View() == LOADED
    {
      quarantine := new PidTable(RG_MAX_QUARANTINED);
      protection := new PidTable(RG_MAX_PROTECTED);
      clientPort := None;
    }

    method PortConnect(port: nat) returns (status: Status)
      requires Valid()
      modifies this`clientPort
      ensures Valid() && View() == Step(old(View()), Connect(port))
      ensures status == if old(clientPort).None? then STATUS_SUCCESS else STATUS_ALREADY_REGISTERED
    {
      if clientPort.Some? {
        return STATUS_ALREADY_REGISTERED;
      }
      clientPort := Some(port);
      return STATUS_SUCCESS;
    }

    /** Both tables survive a disconnect. */
    method PortDisconnect()
      requires Valid()
      modifies this`clientPort
      ensures Valid() && View() == Step(old(View()), Disconnect)
    {
      if clientPort.Some? {
        clientPort := None;
      }
    }

    /** The result is the call's own status and, when a reply was written, the status inside it. A reply buffer that
        faults turns the call's status into the fault's code although the command has been carried out. */
    method PortMessage(input: InputBuffer, output: OutputBuffer) returns (status: Status, reply: Option<Status>)
      requires Valid()
      modifies quarantine`count, quarantine.pids, protection`count, protection.pids
      ensures Valid() && View() == Step(old(View()), Message(input))
      ensures match input
              case NoInput => status == STATUS_INVALID_PARAMETER && reply == None
              case ReadFaults(code) => status == EXCEPTION(code) && reply == None
              case Readable(cmd) =>
                && status == (if output.WriteFaults? then EXCEPTION(output.code) else STATUS_SUCCESS)
                && reply == if output.Writable? then Some(Dispatch(old(View()), cmd).1) else None
    {
      if input.NoInput? {
        return STATUS_INVALID_PARAMETER, None;
      }
      if input.ReadFaults? {
        return EXCEPTION(input.code), None;
      }
      var result := Execute(input.cmd);
      match output
      case NoOutput => return STATUS_SUCCESS, None;
      case WriteFaults(code) => return EXCEPTION(code), None;
      case Writable => return STATUS_SUCCESS, Some(result);
    }

    /** Carry out one command and say what its reply will hold. */
    method Execute(cmd: Command) returns (result: Status)
      requires Valid()
      modifies quarantine`count, quarantine.pids, protection`count, protection.pids
      ensures Valid() && (View(), result) == Dispatch(old(View()), cmd)
    {
      result := STATUS_INVALID_PARAMETER;
      if cmd.version != RG_PROTOCOL_VERSION {
        result := STATUS_REVISION_MISMATCH;
      } else if cmd.kind == CMD_QUARANTINE {
        result := quarantine.Add(cmd.processId);
      } else if cmd.kind == CMD_RELEASE {
        quarantine.Remove(cmd.processId);
        result := STATUS_SUCCESS;
      } else if cmd.kind == CMD_PROTECT {
        if cmd.processId != 0 {
          result := protection.Add(cmd.processId);
        }
      } else if cmd.kind == CMD_UNPROTECT {
        protection.Remove(cmd.processId);
        result := STATUS_SUCCESS;
      } else if cmd.kind == CMD_FLUSH {
        quarantine.Flush();
        result := STATUS_SUCCESS;
      } else if cmd.kind == CMD_PING {
        result := STATUS_SUCCESS;
      }
    }

    method PreWrite(mode: Requestor, pid: ULONG) returns (verdict: Verdict)
      requires Valid()
      ensures verdict == FilterOp(View(), mode, pid, WriteOp)
      ensures verdict == Denied <==> mode == UserMode && pid in quarantine.Contents()
    {
      if mode.KernelMode? {
        return Pass;
      }
      var blocked := quarantine.Contains(pid);
      if blocked {
        return Denied;
      }
      return Pass;
    }

    method PreSetInfo(mode: Requestor, pid: ULONG, info: InfoClass) returns (verdict: Verdict)
      requires Valid()
      ensures verdict == FilterOp(View(), mode, pid, SetInfoOp(info))
      ensures verdict == Denied <==>
              && mode == UserMode && pid in quarantine.Contents()
              && (|| info == FileRenameInformation || info == FileRenameInformationEx
                  || info == FileDispositionInformation || info == FileDispositionInformationEx)
    {
      if mode.KernelMode? {
        return Pass;
      }
      if info.OtherInformation? {
        return Pass;
      }
      var blocked := quarantine.Contains(pid);
      if blocked {
        return Denied;
      }
      return Pass;
    }
  }
}
