/** The command side of the kernel bridge, and what the responder may believe about the kernel table. */
module Protocol {
  import opened Collections
  import D = Driver
  import R = Responder

  /** What becomes of one message on its way to the driver and back. */
  datatype Link = Delivered | LostBeforeDriver | LostAfterDriver

  /** The bridge's port handle and the driver behind it. The handle may outlive the driver's side of the port. */
  datatype Channel = Channel(handle: bool, kernel: D.KernelState)

  /** A PID is stored in a 32-bit field, so larger values wrap around. */
  function ToUlong(pid: int): D.ULONG {
    (pid % 0x1_0000_0000) as D.ULONG
  }

  predicate Reaches(ch: Channel, link: Link) {
    ch.handle && ch.kernel.client.Some? && !link.LostBeforeDriver?
  }

  /** Acknowledged only when the driver carried out the command and said so. Without a handle the bridge answers false,
      as it does when the driver refuses; a call that fails on the way raises. */
  function SendCommand(ch: Channel, kind: D.ULONG, pid: int, link: Link): (Channel, R.BridgeReply) {
    if !ch.handle then (ch, R.Refused)
    else if !Reaches(ch, link) then (ch, R.SendRaised)
    else
      var (kernel, status) := D.Dispatch(ch.kernel, D.Command(D.RG_PROTOCOL_VERSION, kind, ToUlong(pid)));
      (ch.(kernel := kernel),
       if link.LostAfterDriver? then R.SendRaised
       else if status == D.STATUS_SUCCESS then R.Acknowledged
       else R.Refused)
  }

  // ------------------------------------------------------------------- runs

  datatype State = State(memory: R.Memory, channel: Channel)

  datatype Event =
    | RespondTo(pid: int, env: R.Env, link: Link)   // env.bridge is replaced by what the channel answers
    | ChangeMode(mode: R.Mode)
    | ReleasePid(pid: int, link: Link)
    | ProtectPid(pid: int, link: Link)
    | UnprotectPid(pid: int, link: Link)
    | Ping(link: Link)
    | Connect(port: nat)
    | CloseHandle                                   // the bridge closes its handle; the driver sees a disconnect
    | PortBroken                                    // the driver's side goes away first
    | AgentRestart(mode: R.Mode)                    // crash: memory and handle are lost, the driver stays
    | FlushQuarantine(link: Link)
    | DriverReload

  const NO_CHANNEL := Channel(false, D.LOADED)

  /** The environment of a response, with the bridge's answer taken from the channel. */
  function Answered(c: R.Setup, s: State, pid: int, env: R.Env, link: Link): R.Env {
    env.(bridge := Some(SendCommand(s.channel, D.CMD_QUARANTINE, pid, link).1))
  }

  function Step(c: R.Setup, s: State, e: Event): State {
    match e
    case RespondTo(pid, env, link) =>
      var env' := Answered(c, s, pid, env, link);
      State(
        R.Remember(c, s.memory, pid, env'),
        if R.RequestsQuarantine(c, s.memory, pid, env')
        then SendCommand(s.channel, D.CMD_QUARANTINE, pid, link).0
        else s.channel)
    case ChangeMode(mode) => s.(memory := s.memory.(mode := mode))
    case ReleasePid(pid, link) =>
      State(
        s.memory.(killed := s.memory.killed - {pid}, quarantined := s.memory.quarantined - {pid}),
        SendCommand(s.channel, D.CMD_RELEASE, pid, link).0)
    case ProtectPid(pid, link) => s.(channel := SendCommand(s.channel, D.CMD_PROTECT, pid, link).0)
    case UnprotectPid(pid, link) => s.(channel := SendCommand(s.channel, D.CMD_UNPROTECT, pid, link).0)
    case Ping(link) => s.(channel := SendCommand(s.channel, D.CMD_PING, 0, link).0)
    case Connect(port) =>
      if s.channel.handle then s
      else s.(channel := Channel(s.channel.kernel.client.None?, D.Step(s.channel.kernel, D.Connect(port))))
    case CloseHandle => s.(channel := Channel(false, D.Step(s.channel.kernel, D.Disconnect)))
    case PortBroken => s.(channel := s.channel.(kernel := D.Step(s.channel.kernel, D.Disconnect)))
    case AgentRestart(mode) =>
      State(R.Memory(mode, {}, {}), Channel(false, D.Step(s.channel.kernel, D.Disconnect)))
    case FlushQuarantine(link) => s.(channel := SendCommand(s.channel, D.CMD_FLUSH, 0, link).0)
    case DriverReload => s.(channel := s.channel.(kernel := D.LOADED))
  }

  function Run(c: R.Setup, mode: R.Mode, events: seq<Event>): State {
    if events == [] then State(R.Memory(mode, {}, {}), NO_CHANNEL)
    else Step(c, Run(c, mode, Front(events)), Last(events))
  }

  predicate InRange(pid: int) {
    0 <= pid < 0x1_0000_0000
  }

  /** The event's PID fits the 32-bit field of a command. */
  predicate FitsCommand(e: Event) {
    match e
    case RespondTo(pid, _, _) => InRange(pid)
    case ReleasePid(pid, _) => InRange(pid)
    case _ => true
  }

  /** Every PID the responder believes quarantined is in the kernel table. */
  predicate BeliefHolds(s: State) {
    forall p :: p in s.memory.quarantined ==> ToUlong(p) in s.channel.kernel.quarantined
  }

  predicate BeliefInRange(s: State) {
    forall p :: p in s.memory.quarantined ==> InRange(p)
  }

  /** An acknowledgement means the driver did it, whatever the link then does to later messages. */
  lemma AcknowledgedMeansHeld(ch: Channel, pid: int, link: Link)
    ensures var (ch', reply) := SendCommand(ch, D.CMD_QUARANTINE, pid, link);
            && (reply == R.Acknowledged ==> ToUlong(pid) in ch'.kernel.quarantined)
            && ch.kernel.quarantined <= ch'.kernel.quarantined
  {
    D.QuarantineFailsIffFull(ch.kernel, ToUlong(pid));
  }

  // ------------------------------------------------------ what a response sends

  /** A response sends one quarantine command for its PID, and nothing else, exactly when the mode is KILL or QUARANTINE
      and leaves something to do, every gate lets the PID through, and it does not count as quarantined. */
  lemma ResponseSendsExactly(c: R.Setup, s: State, pid: int, env: R.Env, link: Link)
    ensures Step(c, s, RespondTo(pid, env, link)).channel ==
            if && (s.memory.mode == R.QUARANTINE || (s.memory.mode == R.KILL && pid !in s.memory.killed))
               && pid !in s.memory.quarantined && R.GatesPass(c, pid, env)
            then SendCommand(s.channel, D.CMD_QUARANTINE, pid, link).0
            else s.channel
    ensures s.memory.mode == R.OFF ==> Step(c, s, RespondTo(pid, env, link)) == s
  {
    R.UnprotectedIff(c.names, env.lookup);
  }

  /** It is remembered exactly when it was sent and the bridge answered true. */
  lemma ResponseRemembersExactly(c: R.Setup, s: State, pid: int, env: R.Env, link: Link, q: int)
    ensures q in Step(c, s, RespondTo(pid, env, link)).memory.quarantined <==>
            || q in s.memory.quarantined
            || (&& q == pid
                && (s.memory.mode == R.QUARANTINE || (s.memory.mode == R.KILL && pid !in s.memory.killed))
                && R.GatesPass(c, pid, env)
                && SendCommand(s.channel, D.CMD_QUARANTINE, pid, link).1 == R.Acknowledged)
  {
    R.UnprotectedIff(c.names, env.lookup);
  }

  /** What a command comes to: without a handle the answer is false; a message that fails on the way raises; otherwise
      the driver has carried it out, and the answer is true exactly when it says success and the reply gets back. */
  lemma CommandOutcome(ch: Channel, kind: D.ULONG, pid: int, link: Link)
    ensures var (ch', reply) := SendCommand(ch, kind, pid, link);
            var (kernel', status) := D.Dispatch(ch.kernel, D.Command(2, kind, ToUlong(pid)));
            && ch'.handle == ch.handle
            && (ch.handle && ch.kernel.client != None && link != LostBeforeDriver ==> ch'.kernel == kernel')
            && (!ch.handle || ch.kernel.client == None || link == LostBeforeDriver ==> ch' == ch)
            && (reply == R.Refused <==>
                !ch.handle || (ch.kernel.client != None && link == Delivered && status != D.STATUS_SUCCESS))
            && (reply == R.Acknowledged <==>
                ch.handle && ch.kernel.client != None && link == Delivered && status == D.STATUS_SUCCESS)
  {
  }

  /** A release takes its PID, and no other, out of both memories; a restart leaves nothing but the mode, and the
      driver's tables as they are. */
  lemma ForgetsExactly(c: R.Setup, s: State, pid: int, link: Link, mode: R.Mode)
    ensures var s' := Step(c, s, ReleasePid(pid, link));
            && s'.memory.mode == s.memory.mode
            && (forall q :: q in s'.memory.killed <==> q in s.memory.killed && q != pid)
            && (forall q :: q in s'.memory.quarantined <==> q in s.memory.quarantined && q != pid)
    ensures var s' := Step(c, s, AgentRestart(mode));
            && s'.memory.mode == mode && s'.memory.killed == {} == s'.memory.quarantined
            && s'.channel.kernel.quarantined == s.channel.kernel.quarantined
            && s'.channel.kernel.protectedPids == s.channel.kernel.protectedPids
  {
  }

  /** The i-th event opened the port while the driver had no client, and the bridge has kept its handle since. */
  ghost predicate OpenedSince(c: R.Setup, mode: R.Mode, events: seq<Event>, i: nat)
    requires i < |events|
  {
    && events[i].Connect? && Run(c, mode, events[..i]).channel.kernel.client == None
    && forall j :: i < j < |events| ==> !events[j].CloseHandle? && !events[j].AgentRestart?
  }

  lemma HandleAfter(c: R.Setup, s: State, e: Event)
    ensures Step(c, s, e).channel.handle <==>
            && !e.CloseHandle? && !e.AgentRestart?
            && (s.channel.handle || (e.Connect? && s.channel.kernel.client == None))
  {
  }

  /** In every run the bridge has a handle exactly when it opened the port and has neither closed it nor restarted
      since; that the driver's side has broken or was reloaded does not matter. */
  lemma {:induction false} HandleIffOpened(c: R.Setup, mode: R.Mode, events: seq<Event>)
    ensures Run(c, mode, events).channel.handle <==>
            exists i :: 0 <= i < |events| && OpenedSince(c, mode, events, i)
  {
    if events != [] {
      var front, n := Front(events), |events| - 1;
      HandleIffOpened(c, mode, front);
      assert events[..n] == front;
      forall i | 0 <= i < n
        ensures OpenedSince(c, mode, events, i) <==>
                OpenedSince(c, mode, front, i) && !events[n].CloseHandle? && !events[n].AgentRestart?
      {
        assert events[..i] == front[..i];
      }
      HandleAfter(c, Run(c, mode, front), events[n]);
      assert OpenedSince(c, mode, events, n) <==>
             events[n].Connect? && Run(c, mode, front).channel.kernel.client == None;
    }
  }

  // ------------------------------------------------- what empties the table

  /** The event empties the quarantine table: a driver reload, or a flush that gets through. */
  predicate Wipes(s: State, e: Event) {
    e.DriverReload? || (e.FlushQuarantine? && Reaches(s.channel, e.link))
  }

  /** The event takes the PID out of the responder's memory. */
  predicate Forgets(e: Event, pid: int) {
    e.AgentRestart? || (e.ReleasePid? && e.pid == pid)
  }

  /** The PID counts as quarantined and is not in the kernel table. */
  predicate Lost(s: State, pid: int) {
    pid in s.memory.quarantined && ToUlong(pid) !in s.channel.kernel.quarantined
  }

  /** The event takes the PID's value out of the table and leaves the belief: the table is emptied, or another PID that
      wraps to the same 32-bit value is released. */
  predicate Takes(s: State, e: Event, pid: int) {
    || Wipes(s, e)
    || (e.ReleasePid? && e.pid != pid && ToUlong(e.pid) == ToUlong(pid) && Reaches(s.channel, e.link))
  }

  /** The event puts the PID's value back into the table: a response quarantines another PID with the same value. */
  predicate PutsBack(c: R.Setup, s: State, e: Event, pid: int) {
    && e.RespondTo? && e.pid != pid && ToUlong(e.pid) == ToUlong(pid)
    && R.RequestsQuarantine(c, s.memory, e.pid, Answered(c, s, e.pid, e.env, e.link))
    && Reaches(s.channel, e.link) && |s.channel.kernel.quarantined| < D.RG_MAX_QUARANTINED
  }

  lemma ResponseLoses(c: R.Setup, s: State, e: Event, pid: int)
    requires e.RespondTo?
    ensures Lost(Step(c, s, e), pid) <==> Lost(s, pid) && !PutsBack(c, s, e, pid)
  {
    if pid == e.pid {
      AcknowledgedMeansHeld(s.channel, e.pid, e.link);
    } else {
      SentToTable(s.channel, e.pid, e.link, ToUlong(pid));
    }
  }

  /** What a quarantine command does to the membership of one value. */
  lemma SentToTable(ch: Channel, pid: int, link: Link, v: D.ULONG)
    ensures v in SendCommand(ch, D.CMD_QUARANTINE, pid, link).0.kernel.quarantined <==>
            || v in ch.kernel.quarantined
            || (v == ToUlong(pid) && Reaches(ch, link) && |ch.kernel.quarantined| < D.RG_MAX_QUARANTINED)
  {
  }

  /** One event, with any PIDs at all. */
  lemma StepLoses(c: R.Setup, s: State, e: Event, pid: int)
    ensures Lost(Step(c, s, e), pid) <==>
            && !Forgets(e, pid)
            && ((Lost(s, pid) && !PutsBack(c, s, e, pid)) || (pid in s.memory.quarantined && Takes(s, e, pid)))
  {
    if e.RespondTo? {
      ResponseLoses(c, s, e, pid);
    }
  }

  /** The k-th event of the run ends a loss: the PID is forgotten, or its value is put back. */
  predicate EndsLoss(c: R.Setup, mode: R.Mode, events: seq<Event>, k: nat, pid: int)
    requires k < |events|
  {
    Forgets(events[k], pid) || PutsBack(c, Run(c, mode, events[..k]), events[k], pid)
  }

  /** The j-th event took the PID's value out of the table while the PID counted as quarantined, and nothing has ended
      the loss since. */
  ghost predicate TakenAt(c: R.Setup, mode: R.Mode, events: seq<Event>, j: nat, pid: int)
    requires j < |events|
  {
    && pid in Run(c, mode, events[..j]).memory.quarantined
    && Takes(Run(c, mode, events[..j]), events[j], pid)
    && forall k :: j < k < |events| ==> !EndsLoss(c, mode, events, k, pid)
  }

  ghost predicate TakenInRun(c: R.Setup, mode: R.Mode, events: seq<Event>, pid: int) {
    exists j :: 0 <= j < |events| && TakenAt(c, mode, events, j, pid)
  }

  lemma EndsLossFront(c: R.Setup, mode: R.Mode, events: seq<Event>, k: nat, pid: int)
    requires k < |events| - 1
    ensures EndsLoss(c, mode, Front(events), k, pid) <==> EndsLoss(c, mode, events, k, pid)
  {
    assert events[..k] == Front(events)[..k];
  }

  lemma TakenAtFront(c: R.Setup, mode: R.Mode, events: seq<Event>, j: nat, pid: int)
    requires j < |events| - 1
    ensures TakenAt(c, mode, events, j, pid) <==>
            TakenAt(c, mode, Front(events), j, pid) && !EndsLoss(c, mode, events, |events| - 1, pid)
  {
    assert events[..j] == Front(events)[..j];
    forall k | 0 <= k < |events| - 1
      ensures EndsLoss(c, mode, Front(events), k, pid) <==> EndsLoss(c, mode, events, k, pid)
    {
      EndsLossFront(c, mode, events, k, pid);
    }
  }

  lemma TakenInRunSnoc(c: R.Setup, mode: R.Mode, events: seq<Event>, pid: int)
    requires events != []
    ensures var s, e := Run(c, mode, Front(events)), Last(events);
            TakenInRun(c, mode, events, pid) <==>
            || (pid in s.memory.quarantined && Takes(s, e, pid))
            || (TakenInRun(c, mode, Front(events), pid) && !Forgets(e, pid) && !PutsBack(c, s, e, pid))
  {
    var front, n := Front(events), |events| - 1;
    assert events[..n] == front;
    forall j | 0 <= j < n
      ensures TakenAt(c, mode, events, j, pid) <==>
              TakenAt(c, mode, front, j, pid) && !EndsLoss(c, mode, events, n, pid)
    {
      TakenAtFront(c, mode, events, j, pid);
    }
    if pid in Run(c, mode, front).memory.quarantined && Takes(Run(c, mode, front), events[n], pid) {
      assert TakenAt(c, mode, events, n, pid);
    }
  }

  /** In every run, with any PIDs: a PID counts as quarantined without being in the kernel table exactly when a reload,
      a flush that got through, or a release of another PID with the same 32-bit value took it out while it counted as
      quarantined, and since then it has been neither forgotten nor put back through such another PID. */
  lemma {:induction false} LostIffTaken(c: R.Setup, mode: R.Mode, events: seq<Event>, pid: int)
    ensures Lost(Run(c, mode, events), pid) <==> TakenInRun(c, mode, events, pid)
  {
    if events != [] {
      LostIffTaken(c, mode, Front(events), pid);
      StepLoses(c, Run(c, mode, Front(events)), Last(events), pid);
      TakenInRunSnoc(c, mode, events, pid);
    }
  }

  // ---------------------------------------------------- runs with 32-bit PIDs

  /** The j-th event wiped the table while the PID counted as quarantined, and the PID has not been forgotten since. */
  ghost predicate WipedAt(c: R.Setup, mode: R.Mode, events: seq<Event>, j: nat, pid: int)
    requires j < |events|
  {
    && pid in Run(c, mode, events[..j]).memory.quarantined
    && Wipes(Run(c, mode, events[..j]), events[j])
    && forall k :: j < k < |events| ==> !Forgets(events[k], pid)
  }

  ghost predicate WipedInRun(c: R.Setup, mode: R.Mode, events: seq<Event>, pid: int) {
    exists j :: 0 <= j < |events| && WipedAt(c, mode, events, j, pid)
  }

  lemma StepKeepsRange(c: R.Setup, s: State, e: Event)
    requires BeliefInRange(s) && FitsCommand(e)
    ensures BeliefInRange(Step(c, s, e))
  {
  }

  lemma {:induction false} RunKeepsRange(c: R.Setup, mode: R.Mode, events: seq<Event>)
    requires forall e :: e in events ==> FitsCommand(e)
    ensures BeliefInRange(Run(c, mode, events))
  {
    if events != [] {
      RunKeepsRange(c, mode, Front(events));
      assert Last(events) in events;
      StepKeepsRange(c, Run(c, mode, Front(events)), Last(events));
    }
  }

  lemma NoAliases(c: R.Setup, s: State, e: Event, pid: int)
    requires InRange(pid) && FitsCommand(e)
    ensures Takes(s, e, pid) <==> Wipes(s, e)
    ensures !PutsBack(c, s, e, pid)
  {
  }

  lemma WipedAtIffTakenAt(c: R.Setup, mode: R.Mode, events: seq<Event>, j: nat, pid: int)
    requires j < |events| && forall e :: e in events ==> FitsCommand(e)
    ensures WipedAt(c, mode, events, j, pid) <==> TakenAt(c, mode, events, j, pid)
  {
    RunKeepsRange(c, mode, events[..j]);
    if pid in Run(c, mode, events[..j]).memory.quarantined {
      NoAliases(c, Run(c, mode, events[..j]), events[j], pid);
      forall k | j < k < |events|
        ensures EndsLoss(c, mode, events, k, pid) <==> Forgets(events[k], pid)
      {
        NoAliases(c, Run(c, mode, events[..k]), events[k], pid);
      }
    }
  }

  /** So in runs with PIDs that fit the command's field only a reload, or a flush that gets through, breaks the belief,
      and only until the PID is released or the agent restarts. Mode changes, full tables, lost messages, lost or unsent
      flushes, disconnects and reconnects break nothing. */
  lemma LostIffWiped(c: R.Setup, mode: R.Mode, events: seq<Event>, pid: int)
    requires forall e :: e in events ==> FitsCommand(e)
    ensures Lost(Run(c, mode, events), pid) <==> WipedInRun(c, mode, events, pid)
  {
    LostIffTaken(c, mode, events, pid);
    forall j | 0 <= j < |events|
      ensures WipedAt(c, mode, events, j, pid) <==> TakenAt(c, mode, events, j, pid)
    {
      WipedAtIffTakenAt(c, mode, events, j, pid);
    }
  }

  /** It happens in three steps: connect, quarantine a PID that no gate refuses, and flush or reload. */
  lemma FlushOrReloadLoses(c: R.Setup, mode: R.Mode, events: seq<Event>, pid: int, env: R.Env)
    requires R.Acts(c, R.Memory(mode, {}, {}), pid, env) && |events| == 3
    requires events[0] == Connect(1) && events[1] == RespondTo(pid, env, Delivered)
    requires events[2] == FlushQuarantine(Delivered) || events[2] == DriverReload
    ensures Lost(Run(c, mode, events), pid) && WipedAt(c, mode, events, 2, pid)
  {
    var one, two := events[..1], events[..2];
    assert Front(events) == two && Front(two) == one;
    AfterConnect(c, mode, one);
    FirstQuarantine(c, Run(c, mode, one), pid, env);
  }

  lemma AfterConnect(c: R.Setup, mode: R.Mode, events: seq<Event>)
    requires |events| == 1 && events[0] == Connect(1)
    ensures var s := Run(c, mode, events);
            s.memory == R.Memory(mode, {}, {}) && Reaches(s.channel, Delivered) && s.channel.kernel.quarantined == {}
  {
    var s := Run(c, mode, Front(events));
    assert Front(events) == [];
    assert s == State(R.Memory(mode, {}, {}), NO_CHANNEL);
  }

  lemma FirstQuarantine(c: R.Setup, s: State, pid: int, env: R.Env)
    requires R.Acts(c, s.memory, pid, env) && pid !in s.memory.quarantined
    requires Reaches(s.channel, Delivered) && s.channel.kernel.quarantined == {}
    ensures var s' := Step(c, s, RespondTo(pid, env, Delivered));
            pid in s'.memory.quarantined && Reaches(s'.channel, Delivered)
  {
    D.QuarantineFailsIffFull(s.channel.kernel, ToUlong(pid));
  }

  /** So the belief holds in full exactly when no PID has been wiped. */
  lemma BeliefHoldsIff(c: R.Setup, mode: R.Mode, events: seq<Event>)
    requires forall e :: e in events ==> FitsCommand(e)
    ensures BeliefHolds(Run(c, mode, events)) <==> forall pid :: !WipedInRun(c, mode, events, pid)
  {
    var s := Run(c, mode, events);
    forall pid
      ensures Lost(s, pid) <==> WipedInRun(c, mode, events, pid)
    {
      LostIffWiped(c, mode, events, pid);
    }
    if !BeliefHolds(s) {
      var pid :| pid in s.memory.quarantined && ToUlong(pid) !in s.channel.kernel.quarantined;
      assert Lost(s, pid);
    }
  }

  /** A believed quarantine really does block the PID's writes, renames and deletes, unless it has been wiped. */
  lemma BelievedIsBlockedIff(c: R.Setup, mode: R.Mode, events: seq<Event>, pid: int, op: D.FileOp)
    requires forall e :: e in events ==> FitsCommand(e)
    requires pid in Run(c, mode, events).memory.quarantined && D.MutatesFile(op)
    ensures D.FilterOp(Run(c, mode, events).channel.kernel, D.UserMode, ToUlong(pid), op) == D.Denied <==>
            !WipedInRun(c, mode, events, pid)
  {
    LostIffWiped(c, mode, events, pid);
  }

  /** And a wiped PID is not put back: however long the run goes on without a release or a restart, the PID still
      counts as quarantined, its file operations pass, and responding to it again sends nothing. */
  lemma WipedIsNotRebuilt(c: R.Setup, mode: R.Mode, events: seq<Event>, pid: int, env: R.Env, link: Link, op: D.FileOp)
    requires forall e :: e in events ==> FitsCommand(e)
    requires WipedInRun(c, mode, events, pid)
    ensures var s := Run(c, mode, events);
            && pid in s.memory.quarantined
            && D.FilterOp(s.channel.kernel, D.UserMode, ToUlong(pid), op) == D.Pass
            && Step(c, s, RespondTo(pid, env, link)).channel == s.channel
  {
    LostIffWiped(c, mode, events, pid);
  }

  /** The field's range matters: releasing a PID keeps the belief exactly when the command does not get through or no
      other believed PID wraps to the same 32-bit value. */
  lemma ReleaseKeepsBeliefIff(c: R.Setup, s: State, pid: int, link: Link)
    requires BeliefHolds(s)
    ensures BeliefHolds(Step(c, s, ReleasePid(pid, link))) <==>
            || !Reaches(s.channel, link)
            || forall p :: p in s.memory.quarantined && p != pid ==> ToUlong(p) != ToUlong(pid)
  {
    var s' := Step(c, s, ReleasePid(pid, link));
    if Reaches(s.channel, link) {
      assert s'.channel.kernel.quarantined == s.channel.kernel.quarantined - {ToUlong(pid)};
      assert s'.memory.quarantined == s.memory.quarantined - {pid};
      forall p | p in s.memory.quarantined && p != pid
        ensures ToUlong(p) in s'.channel.kernel.quarantined <==> ToUlong(p) != ToUlong(pid)
      {
      }
    }
  }

  /** For instance: with 4 in both the memory and the table, releasing 4 + 2^32 takes 4 out of the table only. */
  lemma WrappedReleaseFreesAnother(c: R.Setup, s: State)
    requires BeliefHolds(s) && 4 in s.memory.quarantined && Reaches(s.channel, Delivered)
    ensures !BeliefHolds(Step(c, s, ReleasePid(0x1_0000_0004, Delivered)))
  {
    assert ToUlong(4) == ToUlong(0x1_0000_0004);
    ReleaseKeepsBeliefIff(c, s, 0x1_0000_0004, Delivered);
  }

  // ------------------------------------------------------------- the bridge

  class Bridge {
    var handle: bool
    const driver: D.MiniFilter

    ghost predicate Valid()
      reads this, driver, driver.quarantine, driver.protection, driver.quarantine.pids, driver.protection.pids
    {
      driver.Valid()
    }

    ghost function View(): Channel
      requires Valid()
      reads this, driver, driver.quarantine, driver.protection, driver.quarantine.pids, driver.protection.pids
    {
      Channel(handle, driver.View())
    }

    constructor (driver: D.MiniFilter)
      requires driver.Valid()
      ensures Valid() && this.driver == driver && View() == Channel(false, driver.View())
    {
      this.driver := driver;
      handle := false;
    }

    /** Send one command and wait for the reply. */
    method Send(kind: D.ULONG, pid: int, link: Link) returns (reply: R.BridgeReply)
      requires Valid()
      modifies driver.quarantine`count, driver.quarantine.pids, driver.protection`count, driver.protection.pids
      ensures Valid() && (View(), reply) == SendCommand(old(View()), kind, pid, link)
    {
      if !handle {
        return R.Refused;
      }
      if driver.clientPort.None? || link.LostBeforeDriver? {
        return R.SendRaised;
      }
      var cmd := D.Command(D.RG_PROTOCOL_VERSION, kind, ToUlong(pid));
      var status, answer := driver.PortMessage(D.Readable(cmd), D.Writable);
      if status != D.STATUS_SUCCESS || link.LostAfterDriver? {
        return R.SendRaised;
      }
      if answer != Some(D.STATUS_SUCCESS) {
        return R.Refused;
      }
      return R.Acknowledged;
    }
  }
}
