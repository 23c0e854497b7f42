/** Active response: which signals lead to a termination, which gates refuse one, and what is remembered. */
module Responder {
  import opened Collections
  import opened Signals
  import opened Scoring
  import opened Texts

  datatype Mode = OFF | QUARANTINE | KILL

  const CORROBORATION_LIMIT := 200
  const ACTION_HISTORY := 1000

  /** The policy tables. Every result below holds for any of them; `DEFAULT_NAMES` holds the shipped ones. */
  datatype NameLists = NameLists(
    neverKill: set<string>,
    pathVerified: set<string>,
    pseudoProcs: set<string>,
    escalateChildren: set<string>,
    trustedDirs: seq<string>)

  /** The fixed configuration of a run: the agent's own PID, the window length and the policy tables. */
  datatype Setup = Setup(own: int, seconds: real, names: NameLists)

  // ------------------------------------------------------------ environment

  /** What the process table answers for a PID; all empty when it cannot be read. */
  datatype Lookup = Lookup(name: string, cmdline: string, exe: string)

  datatype AllowVerdict = Allowed | NotAllowed | CheckRaised

  /** How the kernel bridge answers a command: with true, with false, or by raising. */
  datatype BridgeReply = Acknowledged | Refused | SendRaised

  /** Everything outside the responder that one response to a PID depends on. `bridge` is None when the minifilter
      is switched off, and `killOk` is whether terminating the process succeeds. */
  datatype Env = Env(lookup: Lookup, allow: AllowVerdict, bridge: Option<BridgeReply>, killOk: bool)

  // ------------------------------------------------------------------ gates

  predicate PathIsUntrusted(names: NameLists, exe: string) {
    exe != "" && forall d :: d in names.trustedDirs ==> !(d <= NormCase(exe))
  }

  predicate IsNeverKill(names: NameLists, image: Lookup) {
    var n := Lower(image.name);
    || n in names.pseudoProcs
    || (n in names.neverKill && !(n in names.pathVerified && PathIsUntrusted(names, image.exe)))
  }

  /** The policy in its own words: a pseudo process is protected by its name, and so is a listed name, unless it is one
      whose image is verified, the image can be read, and its path starts with no trusted directory. */
  predicate Unprotected(names: NameLists, image: Lookup) {
    && Lower(image.name) !in names.pseudoProcs
    && (Lower(image.name) in names.neverKill ==>
          && Lower(image.name) in names.pathVerified
          && image.exe != ""
          && forall d :: d in names.trustedDirs ==> !(d <= NormCase(image.exe)))
  }

  lemma UnprotectedIff(names: NameLists, image: Lookup)
    ensures Unprotected(names, image) <==> !IsNeverKill(names, image)
  {
  }

  /** None of the three gates objects: the agent itself, the protected names, the operator's list. */
  predicate GatesPass(c: Setup, pid: int, env: Env) {
    pid != c.own && Unprotected(c.names, env.lookup) && env.allow != Allowed
  }

  predicate IsLolbinSignal(names: NameLists, sig: Signal) {
    Lower(TextUnder(sig.metadata, "process")) in names.escalateChildren
  }

  /** A tool is accused exactly when the signal's process text, read without regard to case, is one of the names; a
      signal without a process text reads as the empty name. */
  lemma LolbinIff(names: NameLists, sig: Signal)
    ensures IsLolbinSignal(names, sig) <==>
            || (exists t :: "process" in sig.metadata && sig.metadata["process"] == TextValue(t)
                            && Lower(t) in names.escalateChildren)
            || (("process" !in sig.metadata || !sig.metadata["process"].TextValue?) && "" in names.escalateChildren)
  {
    assert Lower("") == "";
  }

  // ---------------------------------------------------------- corroboration

  predicate BothAccuse(pid: int, a: Signal, b: Signal) {
    a.detector != b.detector && ExtractPid(a) == Some(pid) && ExtractPid(b) == Some(pid)
  }

  /** Two signals from different detectors that name the PID. */
  ghost predicate TwoDetectorsName(pid: int, sigs: seq<Signal>) {
    exists a, b :: a in sigs && b in sigs && BothAccuse(pid, a, b)
  }

  /** Does `sig` justify acting on `pid`, given the signals in the window? A CRITICAL signal does on its own; any other
      needs untrusted encryption evidence from another signal, or two detectors that name the PID among the latest 200
      signals. */
  ghost predicate Confident(pid: int, sig: Signal, window: seq<Signal>) {
    || sig.severity == CRITICAL
    || HasEncryptionActivity(window, Some(sig.id))
    || TwoDetectorsName(pid, EndSlice(window, CORROBORATION_LIMIT))
  }

  // ------------------------------------------------------- one response

  datatype Note =
    | NoError
    | OwnPid
    | OnNeverKillList
    | OnAllowlist
    | AlreadyHandled
    | ModeOff
    | ObservedOnly
    | QuarantineFailed
    | TerminateFailed
    | BothFailed

  datatype KillAction = KillAction(
    pid: int,
    processName: string,
    cmdline: string,
    reason: string,
    mode: Mode,
    quarantined: bool,
    terminated: bool,
    note: Note)

  /** What the responder remembers about PIDs. */
  datatype Memory = Memory(mode: Mode, killed: set<int>, quarantined: set<int>)

  predicate Refuses(c: Setup, pid: int, env: Env) {
    || pid == c.own
    || IsNeverKill(c.names, env.lookup)
    || env.allow.Allowed?
  }

  /** Nothing is left to do for this PID in the current mode. */
  predicate FullyHandled(m: Memory, pid: int) {
    || (m.mode == KILL && pid in m.killed)
    || (m.mode == QUARANTINE && pid in m.quarantined)
  }

  predicate Acts(c: Setup, m: Memory, pid: int, env: Env) {
    !Refuses(c, pid, env) && !FullyHandled(m, pid) && m.mode != OFF
  }

  predicate RequestsQuarantine(c: Setup, m: Memory, pid: int, env: Env) {
    Acts(c, m, pid, env) && env.bridge.Some? && pid !in m.quarantined
  }

  predicate AttemptsKill(c: Setup, m: Memory, pid: int, env: Env) {
    Acts(c, m, pid, env) && m.mode == KILL && pid !in m.killed
  }

  function Remember(c: Setup, m: Memory, pid: int, env: Env): Memory {
    m.(
      quarantined :=
        if RequestsQuarantine(c, m, pid, env) && env.bridge.value.Acknowledged? then m.quarantined + {pid}
        else m.quarantined,
      killed := if AttemptsKill(c, m, pid, env) && env.killOk then m.killed + {pid} else m.killed)
  }

  function WindowAfter(c: Setup, m: Memory, pid: int, env: Env, window: seq<Signal>): seq<Signal> {
    if AttemptsKill(c, m, pid, env) && env.killOk then Filter(window, NotNamedBy(pid)) else window
  }

  // ------------------------------------------------------------------- runs

  /** Why a PID was responded to: an operator asked, a signal accused it, or it is the parent of an accused tool.
      `window` is the scoring window at that moment. */
  datatype Cause =
    | Manual
    | Accused(sig: Signal, window: seq<Signal>)
    | ParentOf(sig: Signal, window: seq<Signal>)

  datatype LogEntry =
    | QuarantineRequest(pid: int, mode: Mode, env: Env, cause: Cause)
    | Termination(pid: int, mode: Mode, env: Env, cause: Cause)
    | Release(released: int)

  datatype State = State(memory: Memory, window: seq<Signal>, log: seq<LogEntry>)

  datatype Event =
    | SignalArrives(sig: Signal, classifier: Classifier, now: real, env: Env, parentEnv: Env)
    | SetMode(mode: Mode)
    | ManualKill(pid: int, env: Env)
    | ManualRelease(pid: int)

  /** What a response sends to the kernel or the process, in order. */
  function Attempts(c: Setup, m: Memory, pid: int, env: Env, cause: Cause): seq<LogEntry> {
    (if RequestsQuarantine(c, m, pid, env) then [QuarantineRequest(pid, m.mode, env, cause)] else [])
    + if AttemptsKill(c, m, pid, env) then [Termination(pid, m.mode, env, cause)] else []
  }

  function Respond(c: Setup, s: State, pid: int, env: Env, cause: Cause): State {
    State(
      Remember(c, s.memory, pid, env),
      WindowAfter(c, s.memory, pid, env, s.window),
      s.log + Attempts(c, s.memory, pid, env, cause))
  }

  predicate Actionable(sig: Signal) {
    ExtractPid(sig).Some? && (sig.severity == HIGH || sig.severity == CRITICAL)
  }

  predicate Escalates(c: Setup, sig: Signal) {
    ExtractParentPid(sig).Some? && ExtractParentPid(sig) != ExtractPid(sig) && IsLolbinSignal(c.names, sig)
  }

  /** The signal names a PID, is severe enough, and the evidence in the window suffices to act on it. */
  ghost predicate Warrants(sig: Signal, window: seq<Signal>) {
    Actionable(sig) && Confident(ExtractPid(sig).value, sig, window)
  }

  /** What it takes: a PID to accuse, and severity CRITICAL, or HIGH with encryption evidence from another signal or
      with two different detectors that accuse this PID among the latest 200 signals. */
  lemma WarrantsIff(sig: Signal, window: seq<Signal>)
    ensures Warrants(sig, window) <==>
            && ExtractPid(sig) != None
            && (|| sig.severity == CRITICAL
                || (sig.severity == HIGH
                    && (|| (exists s :: s in window && s.id != sig.id && EncryptionEvidence(s))
                        || (exists i, j :: && 0 <= i < |window| && 0 <= j < |window|
                                           && |window| - 200 <= i && |window| - 200 <= j
                                           && window[i].detector != window[j].detector
                                           && ExtractPid(window[i]) == ExtractPid(window[j]) == ExtractPid(sig)))))
  {
    if ExtractPid(sig).Some? {
      DetectorsAgreeIff(ExtractPid(sig).value, window);
    }
  }

  ghost predicate DetectorsAgree(pid: int, window: seq<Signal>) {
    exists i, j :: && 0 <= i < |window| && 0 <= j < |window| && |window| - 200 <= i && |window| - 200 <= j
                   && BothAccuse(pid, window[i], window[j])
  }

  lemma DetectorsAgreeIff(pid: int, window: seq<Signal>)
    ensures DetectorsAgree(pid, window) <==> TwoDetectorsName(pid, EndSlice(window, CORROBORATION_LIMIT))
  {
    if TwoDetectorsName(pid, EndSlice(window, CORROBORATION_LIMIT)) {
      NamedMeansAgreed(pid, window);
    }
    if DetectorsAgree(pid, window) {
      AgreedMeansNamed(pid, window);
    }
  }

  lemma NamedMeansAgreed(pid: int, window: seq<Signal>)
    requires TwoDetectorsName(pid, EndSlice(window, CORROBORATION_LIMIT))
    ensures DetectorsAgree(pid, window)
  {
    var last := EndSlice(window, CORROBORATION_LIMIT);
    var a, b :| a in last && b in last && BothAccuse(pid, a, b);
    var i := InEndSlice(window, a);
    var j := InEndSlice(window, b);
  }

  lemma AgreedMeansNamed(pid: int, window: seq<Signal>)
    requires DetectorsAgree(pid, window)
    ensures TwoDetectorsName(pid, EndSlice(window, CORROBORATION_LIMIT))
  {
    var i, j :| && 0 <= i < |window| && 0 <= j < |window| && |window| - 200 <= i && |window| - 200 <= j
                && BothAccuse(pid, window[i], window[j]);
    EndSliceHolds(window, i);
    EndSliceHolds(window, j);
  }

  lemma InEndSlice(window: seq<Signal>, s: Signal) returns (i: nat)
    requires s in EndSlice(window, CORROBORATION_LIMIT)
    ensures i < |window| && |window| - 200 <= i && window[i] == s
  {
    var last := EndSlice(window, CORROBORATION_LIMIT);
    var j :| 0 <= j < |last| && last[j] == s;
    i := |window| - |last| + j;
  }

  lemma EndSliceHolds(window: seq<Signal>, i: nat)
    requires i < |window| && |window| - 200 <= i
    ensures window[i] in EndSlice(window, CORROBORATION_LIMIT)
  {
    var last := EndSlice(window, CORROBORATION_LIMIT);
    assert last[i - (|window| - |last|)] == window[i];
  }

  /** The reaction to a signal that has just joined the window. */
  ghost function React(c: Setup, s: State, sig: Signal, env: Env, parentEnv: Env): State {
    if !Warrants(sig, s.window) then s
    else
      var first := Respond(c, s, ExtractPid(sig).value, env, Accused(sig, s.window));
      if Escalates(c, sig)
      then Respond(c, first, ExtractParentPid(sig).value, parentEnv, ParentOf(sig, s.window))
      else first
  }

  lemma NoReaction(c: Setup, s: State, sig: Signal, env: Env, parentEnv: Env)
    requires !Warrants(sig, s.window)
    ensures React(c, s, sig, env, parentEnv) == s
  {
  }

  ghost function Step(c: Setup, s: State, e: Event): State {
    match e
    case SignalArrives(sig, classifier, now, env, parentEnv) =>
      var joined := s.(window := AfterSubmit(s.window, c.seconds, sig, classifier, now));
      React(c, joined, Stamp(sig, classifier), env, parentEnv)
    case SetMode(mode) => s.(memory := s.memory.(mode := mode))
    case ManualKill(pid, env) => Respond(c, s, pid, env, Manual)
    case ManualRelease(pid) =>
      s.(memory := s.memory.(killed := s.memory.killed - {pid}, quarantined := s.memory.quarantined - {pid}),
         log := s.log + [Release(pid)])
  }

  ghost function Run(c: Setup, mode: Mode, events: seq<Event>): State {
    if events == [] then State(Memory(mode, {}, {}), [], [])
    else Step(c, Run(c, mode, Front(events)), Last(events))
  }

  /** The signal accuses `pid` directly, or `pid` is the parent of the LOLBin it accuses. */
  predicate Names(c: Setup, cause: Cause, pid: int)
    requires !cause.Manual?
  {
    match cause
    case Accused(sig, _) => ExtractPid(sig) == Some(pid)
    case ParentOf(sig, _) =>
      ExtractParentPid(sig) == Some(pid) && ExtractPid(sig) != Some(pid) && IsLolbinSignal(c.names, sig)
  }

  /** A termination was in KILL mode, a quarantine in KILL or QUARANTINE mode, and every gate let the PID through. */
  predicate WithinGates(c: Setup, e: LogEntry)
    requires !e.Release?
  {
    && (e.mode == KILL || (e.mode == QUARANTINE && e.QuarantineRequest?))
    && GatesPass(c, e.pid, e.env)
  }

  ghost predicate SafeEntry(c: Setup, e: LogEntry) {
    !e.Release? ==>
      WithinGates(c, e) && (!e.cause.Manual? ==> Names(c, e.cause, e.pid) && Warrants(e.cause.sig, e.cause.window))
  }

  lemma RespondIsSafe(c: Setup, s: State, pid: int, env: Env, cause: Cause)
    requires forall e :: e in s.log ==> SafeEntry(c, e)
    requires !cause.Manual? ==> Names(c, cause, pid) && Warrants(cause.sig, cause.window)
    ensures forall e :: e in Respond(c, s, pid, env, cause).log ==> SafeEntry(c, e)
  {
    UnprotectedIff(c.names, env.lookup);
    forall e | e in Attempts(c, s.memory, pid, env, cause)
      ensures SafeEntry(c, e)
    {
    }
  }

  lemma ReactIsSafe(c: Setup, s: State, sig: Signal, env: Env, parentEnv: Env)
    requires forall e :: e in s.log ==> SafeEntry(c, e)
    ensures forall e :: e in React(c, s, sig, env, parentEnv).log ==> SafeEntry(c, e)
  {
    if Warrants(sig, s.window) {
      var accused := Accused(sig, s.window);
      var first := Respond(c, s, ExtractPid(sig).value, env, accused);
      RespondIsSafe(c, s, ExtractPid(sig).value, env, accused);
      if Escalates(c, sig) {
        RespondIsSafe(c, first, ExtractParentPid(sig).value, parentEnv, ParentOf(sig, s.window));
      }
    }
  }

  /** In every run, every termination ever attempted was in KILL mode, every quarantine ever requested in KILL or
      QUARANTINE mode, all of them passed all three gates, and every one that no operator asked for had the evidence the
      policy demands. */
  lemma {:induction false} AttemptsAreJustified(c: Setup, mode: Mode, events: seq<Event>)
    ensures forall e :: e in Run(c, mode, events).log ==> SafeEntry(c, e)
  {
    if events != [] {
      AttemptsAreJustified(c, mode, Front(events));
      var s := Run(c, mode, Front(events));
      match Last(events)
      case SignalArrives(sig, classifier, now, env, parentEnv) =>
        var s' := s.(window := AfterSubmit(s.window, c.seconds, sig, classifier, now));
        ReactIsSafe(c, s', Stamp(sig, classifier), env, parentEnv);
      case ManualKill(pid, env) => RespondIsSafe(c, s, pid, env, Manual);
      case SetMode(_) =>
      case ManualRelease(_) =>
    }
  }

  // ----------------------------------------------- what a response does, exactly

  /** The gates let the PID through and it does not count as killed. */
  predicate Killable(c: Setup, s: State, pid: int, env: Env) {
    s.memory.mode == KILL && pid !in s.memory.killed && GatesPass(c, pid, env)
  }

  /** The gates let the PID through, there is a minifilter, the PID does not count as quarantined, and the mode leaves
      something to do for it. */
  predicate Quarantinable(c: Setup, s: State, pid: int, env: Env) {
    && (s.memory.mode == QUARANTINE || (s.memory.mode == KILL && pid !in s.memory.killed))
    && pid !in s.memory.quarantined && env.bridge.Some? && GatesPass(c, pid, env)
  }

  /** Memory, window and log after a response, in terms of the mode, the gates and what is remembered. */
  lemma ResponseEffect(c: Setup, s: State, pid: int, env: Env, cause: Cause)
    ensures var s' := Respond(c, s, pid, env, cause);
            && s'.memory.mode == s.memory.mode
            && s'.memory.quarantined ==
               s.memory.quarantined +
               (if Quarantinable(c, s, pid, env) && env.bridge == Some(Acknowledged) then {pid} else {})
            && s'.memory.killed == s.memory.killed + (if Killable(c, s, pid, env) && env.killOk then {pid} else {})
            && s'.window ==
               (if Killable(c, s, pid, env) && env.killOk then Filter(s.window, NotNamedBy(pid)) else s.window)
            && s'.log == s.log + Attempt(c, s, pid, env, cause)
  {
    UnprotectedIff(c.names, env.lookup);
  }

  /** With the responder switched off, a response leaves everything as it was. */
  lemma OffModeTouchesNothing(c: Setup, s: State, pid: int, env: Env, cause: Cause)
    requires s.memory.mode == OFF
    ensures Respond(c, s, pid, env, cause) == s
  {
    ResponseEffect(c, s, pid, env, cause);
    assert s.log + [] == s.log;
  }

  /** A release takes the PID, and no other, out of both memories, and a mode change changes the mode only. */
  lemma ReleaseAndModeEffect(c: Setup, s: State, pid: int, mode: Mode)
    ensures var s' := Step(c, s, ManualRelease(pid));
            && s'.memory.mode == s.memory.mode && s'.window == s.window
            && (forall p :: p in s'.memory.killed <==> p in s.memory.killed && p != pid)
            && (forall p :: p in s'.memory.quarantined <==> p in s.memory.quarantined && p != pid)
            && s'.log == s.log + [Release(pid)]
    ensures var s' := Step(c, s, SetMode(mode));
            s'.memory == Memory(mode, s.memory.killed, s.memory.quarantined) && s'.window == s.window && s'.log == s.log
  {
  }

  /** And so does a signal's arrival, but for the window. */
  lemma OffModeOnlyWatches(
    c: Setup, s: State, sig: Signal, classifier: Classifier, now: real, env: Env, parentEnv: Env)
    requires s.memory.mode == OFF
    ensures var s' := Step(c, s, SignalArrives(sig, classifier, now, env, parentEnv));
            s'.memory == s.memory && s'.log == s.log
  {
    var joined := s.(window := AfterSubmit(s.window, c.seconds, sig, classifier, now));
    var sig' := Stamp(sig, classifier);
    if Warrants(sig', joined.window) {
      OffModeTouchesNothing(c, joined, ExtractPid(sig').value, env, Accused(sig', joined.window));
      if Escalates(c, sig') {
        OffModeTouchesNothing(c, joined, ExtractParentPid(sig').value, parentEnv, ParentOf(sig', joined.window));
      }
    }
  }

  lemma LogOnlyGrows(c: Setup, s: State, sig: Signal, env: Env, parentEnv: Env)
    ensures s.log <= React(c, s, sig, env, parentEnv).log
  {
  }

  /** The entries that a reaction adds to the log. */
  ghost function NewEntries(c: Setup, s: State, sig: Signal, env: Env, parentEnv: Env): (added: seq<LogEntry>)
    ensures React(c, s, sig, env, parentEnv).log == s.log + added
  {
    var log := React(c, s, sig, env, parentEnv).log;
    LogOnlyGrows(c, s, sig, env, parentEnv);
    assert log == s.log + log[|s.log|..];
    log[|s.log|..]
  }

  predicate TerminatesIn(log: seq<LogEntry>, pid: int) {
    exists e :: e in log && e.Termination? && e.pid == pid
  }

  predicate QuarantinesIn(log: seq<LogEntry>, pid: int) {
    exists e :: e in log && e.QuarantineRequest? && e.pid == pid
  }

  lemma AttemptedInConcat(a: seq<LogEntry>, b: seq<LogEntry>, pid: int)
    ensures TerminatesIn(a + b, pid) <==> TerminatesIn(a, pid) || TerminatesIn(b, pid)
    ensures QuarantinesIn(a + b, pid) <==> QuarantinesIn(a, pid) || QuarantinesIn(b, pid)
  {
  }

  /** The log entries of one response. */
  function Attempt(c: Setup, s: State, pid: int, env: Env, cause: Cause): seq<LogEntry> {
    (if Quarantinable(c, s, pid, env) then [QuarantineRequest(pid, s.memory.mode, env, cause)] else [])
    + if Killable(c, s, pid, env) then [Termination(pid, KILL, env, cause)] else []
  }

  lemma AttemptHas(c: Setup, s: State, pid: int, env: Env, cause: Cause, q: int)
    ensures Respond(c, s, pid, env, cause).log == s.log + Attempt(c, s, pid, env, cause)
    ensures TerminatesIn(Attempt(c, s, pid, env, cause), q) <==> q == pid && Killable(c, s, pid, env)
    ensures QuarantinesIn(Attempt(c, s, pid, env, cause), q) <==> q == pid && Quarantinable(c, s, pid, env)
  {
    ResponseEffect(c, s, pid, env, cause);
    if Killable(c, s, pid, env) {
      assert Termination(pid, KILL, env, cause) in Attempt(c, s, pid, env, cause);
    }
    if Quarantinable(c, s, pid, env) {
      assert QuarantineRequest(pid, s.memory.mode, env, cause) in Attempt(c, s, pid, env, cause);
    }
  }

  lemma Regroup(log: seq<LogEntry>, a: seq<LogEntry>, b: seq<LogEntry>)
    ensures (log + a) + b == log + (a + b)
  {
  }

  lemma AddedEntries(c: Setup, s: State, sig: Signal, env: Env, parentEnv: Env)
    requires Warrants(sig, s.window)
    ensures var accused, cause := ExtractPid(sig).value, Accused(sig, s.window);
            var first := Respond(c, s, accused, env, cause);
            NewEntries(c, s, sig, env, parentEnv) ==
            Attempt(c, s, accused, env, cause) +
            if Escalates(c, sig) then Attempt(c, first, ExtractParentPid(sig).value, parentEnv, ParentOf(sig, s.window))
            else []
  {
    var accused, cause := ExtractPid(sig).value, Accused(sig, s.window);
    var first := Respond(c, s, accused, env, cause);
    AttemptHas(c, s, accused, env, cause, 0);
    if Escalates(c, sig) {
      var parent, parentCause := ExtractParentPid(sig).value, ParentOf(sig, s.window);
      AttemptHas(c, first, parent, parentEnv, parentCause, 0);
      Regroup(s.log, Attempt(c, s, accused, env, cause), Attempt(c, first, parent, parentEnv, parentCause));
    }
  }

  lemma WarrantedAttempts(c: Setup, s: State, sig: Signal, env: Env, parentEnv: Env, pid: int)
    requires Warrants(sig, s.window)
    ensures var accused := ExtractPid(sig).value;
            var first := Respond(c, s, accused, env, Accused(sig, s.window));
            var parent := Escalates(c, sig) && pid == ExtractParentPid(sig).value;
            var added := NewEntries(c, s, sig, env, parentEnv);
            && (TerminatesIn(added, pid) <==>
                || (pid == accused && Killable(c, s, pid, env))
                || (parent && Killable(c, first, pid, parentEnv)))
            && (QuarantinesIn(added, pid) <==>
                || (pid == accused && Quarantinable(c, s, pid, env))
                || (parent && Quarantinable(c, first, pid, parentEnv)))
  {
    var accused, cause := ExtractPid(sig).value, Accused(sig, s.window);
    var first := Respond(c, s, accused, env, cause);
    AddedEntries(c, s, sig, env, parentEnv);
    AttemptHas(c, s, accused, env, cause, pid);
    if Escalates(c, sig) {
      var parent, parentCause := ExtractParentPid(sig).value, ParentOf(sig, s.window);
      AttemptHas(c, first, parent, parentEnv, parentCause, pid);
      AttemptedInConcat(Attempt(c, s, accused, env, cause), Attempt(c, first, parent, parentEnv, parentCause), pid);
    } else {
      AttemptedInConcat(Attempt(c, s, accused, env, cause), [], pid);
    }
  }

  /** Responding to one PID does not change what may be done to another. */
  lemma OthersStayOpen(c: Setup, s: State, pid: int, env: Env, cause: Cause, other: int, otherEnv: Env)
    requires other != pid
    ensures Killable(c, Respond(c, s, pid, env, cause), other, otherEnv) <==> Killable(c, s, other, otherEnv)
    ensures Quarantinable(c, Respond(c, s, pid, env, cause), other, otherEnv) <==> Quarantinable(c, s, other, otherEnv)
  {
    ResponseEffect(c, s, pid, env, cause);
  }

  lemma NothingAttempted(c: Setup, s: State, sig: Signal, env: Env, parentEnv: Env, pid: int)
    requires !Warrants(sig, s.window)
    ensures !TerminatesIn(NewEntries(c, s, sig, env, parentEnv), pid)
    ensures !QuarantinesIn(NewEntries(c, s, sig, env, parentEnv), pid)
  {
    NoReaction(c, s, sig, env, parentEnv);
    assert NewEntries(c, s, sig, env, parentEnv) == [];
  }

  /** Exactly which PIDs a signal gets terminated or quarantined: the one it accuses and the parent of an accused tool,
      each behind its own gates, and none unless the evidence suffices. */
  lemma ReactionActsExactly(c: Setup, s: State, sig: Signal, env: Env, parentEnv: Env, pid: int)
    ensures TerminatesIn(NewEntries(c, s, sig, env, parentEnv), pid) <==>
            && Warrants(sig, s.window)
            && (|| (Names(c, Accused(sig, s.window), pid) && Killable(c, s, pid, env))
                || (Names(c, ParentOf(sig, s.window), pid) && Killable(c, s, pid, parentEnv)))
    ensures QuarantinesIn(NewEntries(c, s, sig, env, parentEnv), pid) <==>
            && Warrants(sig, s.window)
            && (|| (Names(c, Accused(sig, s.window), pid) && Quarantinable(c, s, pid, env))
                || (Names(c, ParentOf(sig, s.window), pid) && Quarantinable(c, s, pid, parentEnv)))
  {
    if Warrants(sig, s.window) {
      WarrantedAttempts(c, s, sig, env, parentEnv, pid);
      if pid != ExtractPid(sig).value {
        OthersStayOpen(c, s, ExtractPid(sig).value, env, Accused(sig, s.window), pid, parentEnv);
      }
    } else {
      NothingAttempted(c, s, sig, env, parentEnv, pid);
    }
  }

  // ------------------------------------------------ no second termination

  function KilledBy(killed: set<int>, e: LogEntry): set<int> {
    match e
    case QuarantineRequest(_, _, _, _) => killed
    case Termination(pid, _, env, _) => if env.killOk then killed + {pid} else killed
    case Release(pid) => killed - {pid}
  }

  function QuarantinedBy(quarantined: set<int>, e: LogEntry): set<int> {
    match e
    case QuarantineRequest(pid, _, env, _) =>
      if env.bridge == Some(Acknowledged) then quarantined + {pid} else quarantined
    case Termination(_, _, _, _) => quarantined
    case Release(pid) => quarantined - {pid}
  }

  /** The PIDs whose last successful termination has not been released, read off the log. */
  function KilledIn(log: seq<LogEntry>): set<int> {
    if log == [] then {} else KilledBy(KilledIn(Front(log)), Last(log))
  }

  /** The PIDs whose last acknowledged quarantine has not been released. */
  function QuarantinedIn(log: seq<LogEntry>): set<int> {
    if log == [] then {} else QuarantinedBy(QuarantinedIn(Front(log)), Last(log))
  }

  /** No entry of the log terminates a PID that counts as killed, or quarantines one that counts as quarantined. */
  predicate NeverRepeats(log: seq<LogEntry>) {
    forall j :: 0 <= j < |log| ==> NewAt(log, j)
  }

  predicate NewAt(log: seq<LogEntry>, j: nat)
    requires j < |log|
  {
    && (log[j].Termination? ==> log[j].pid !in KilledIn(log[..j]))
    && (log[j].QuarantineRequest? ==> log[j].pid !in QuarantinedIn(log[..j]))
  }

  /** The memory is what the log says. */
  predicate LogMatches(s: State) {
    KilledIn(s.log) == s.memory.killed && QuarantinedIn(s.log) == s.memory.quarantined && NeverRepeats(s.log)
  }

  lemma LogSnoc(log: seq<LogEntry>, e: LogEntry)
    requires NeverRepeats(log)
    requires e.Termination? ==> e.pid !in KilledIn(log)
    requires e.QuarantineRequest? ==> e.pid !in QuarantinedIn(log)
    ensures NeverRepeats(log + [e])
    ensures KilledIn(log + [e]) == KilledBy(KilledIn(log), e)
    ensures QuarantinedIn(log + [e]) == QuarantinedBy(QuarantinedIn(log), e)
  {
    assert Front(log + [e]) == log;
    forall j | 0 <= j < |log + [e]|
      ensures NewAt(log + [e], j)
    {
      assert (log + [e])[..j] == log[..j];
      assert log[..|log|] == log;
      assert j < |log| ==> NewAt(log, j);
    }
  }

  lemma RespondKeepsLog(c: Setup, s: State, pid: int, env: Env, cause: Cause)
    requires LogMatches(s)
    ensures LogMatches(Respond(c, s, pid, env, cause))
  {
    ResponseEffect(c, s, pid, env, cause);
    var requests := if Quarantinable(c, s, pid, env) then [QuarantineRequest(pid, s.memory.mode, env, cause)] else [];
    var kills := if Killable(c, s, pid, env) then [Termination(pid, KILL, env, cause)] else [];
    Regroup(s.log, requests, kills);
    if Quarantinable(c, s, pid, env) {
      LogSnoc(s.log, QuarantineRequest(pid, s.memory.mode, env, cause));
    } else {
      assert s.log + [] == s.log;
    }
    if Killable(c, s, pid, env) {
      LogSnoc(s.log + requests, Termination(pid, KILL, env, cause));
    } else {
      assert (s.log + requests) + [] == s.log + requests;
    }
  }

  lemma {:induction false} RunKeepsLog(c: Setup, mode: Mode, events: seq<Event>)
    ensures LogMatches(Run(c, mode, events))
  {
    if events != [] {
      RunKeepsLog(c, mode, Front(events));
      var s := Run(c, mode, Front(events));
      match Last(events)
      case SignalArrives(sig, classifier, now, env, parentEnv) =>
        var s' := s.(window := AfterSubmit(s.window, c.seconds, sig, classifier, now));
        var sig' := Stamp(sig, classifier);
        if Warrants(sig', s'.window) {
          var cause, parentCause := Accused(sig', s'.window), ParentOf(sig', s'.window);
          RespondKeepsLog(c, s', ExtractPid(sig').value, env, cause);
          if Escalates(c, sig') {
            RespondKeepsLog(c, Respond(c, s', ExtractPid(sig').value, env, cause),
                            ExtractParentPid(sig').value, parentEnv, parentCause);
          }
        }
      case SetMode(_) =>
      case ManualKill(pid, env) => RespondKeepsLog(c, s, pid, env, Manual);
      case ManualRelease(pid) => LogSnoc(s.log, Release(pid));
    }
  }

  lemma {:induction false} HeldHasEntry(log: seq<LogEntry>, pid: int)
    requires pid in QuarantinedIn(log)
    ensures exists e :: e in log && e.QuarantineRequest? && e.pid == pid && e.env.bridge == Some(Acknowledged)
  {
    assert log == Front(log) + [Last(log)];
    if Last(log).QuarantineRequest? && Last(log).pid == pid && Last(log).env.bridge == Some(Acknowledged) {
      assert Last(log) in log;
    } else {
      HeldHasEntry(Front(log), pid);
    }
  }

  /** So in every run each PID that counts as quarantined was acknowledged by the kernel for a request in KILL or
      QUARANTINE mode that passed all three gates and that an operator asked for or a signal warranted. */
  lemma QuarantinesAreJustified(c: Setup, mode: Mode, events: seq<Event>, pid: int)
    requires pid in Run(c, mode, events).memory.quarantined
    ensures exists e :: && e in Run(c, mode, events).log && e.QuarantineRequest? && e.pid == pid
                        && e.env.bridge == Some(Acknowledged) && (e.mode == KILL || e.mode == QUARANTINE)
                        && GatesPass(c, pid, e.env)
                        && (e.cause.Manual? || (Names(c, e.cause, pid) && Warrants(e.cause.sig, e.cause.window)))
  {
    RunKeepsLog(c, mode, events);
    AttemptsAreJustified(c, mode, events);
    HeldHasEntry(Run(c, mode, events).log, pid);
  }

  lemma {:induction false} KilledUntilReleased(log: seq<LogEntry>, i: nat, pid: int)
    requires i < |log| && log[i].Termination? && log[i].env.killOk && log[i].pid == pid
    requires forall k :: i < k < |log| ==> log[k] != Release(pid)
    ensures pid in KilledIn(log)
  {
    if i < |log| - 1 {
      KilledUntilReleased(Front(log), i, pid);
    }
  }

  /** In every run, once a PID has been terminated successfully, no later termination of it is even attempted
      unless an operator released it in between. */
  lemma NoSecondTermination(c: Setup, mode: Mode, events: seq<Event>, i: nat, j: nat)
    requires var log := Run(c, mode, events).log;
             && i < j < |log| && log[i].Termination? && log[j].Termination?
             && log[i].pid == log[j].pid && log[i].env.killOk
    ensures var log := Run(c, mode, events).log;
            exists k :: i < k < j && log[k] == Release(log[i].pid)
  {
    RunKeepsLog(c, mode, events);
    var log := Run(c, mode, events).log;
    assert NewAt(log, j);
    if forall k :: i < k < j ==> log[k] != Release(log[i].pid) {
      KilledUntilReleased(log[..j], i, log[i].pid);
      assert false;
    }
  }

  // -------------------------------------------------- effect on the score

  /** A successful kill removes exactly the killed PID's share from the live score and disturbs nothing else. */
  lemma KillLowersScoreByShare(c: Setup, s: State, pid: int, env: Env, cause: Cause)
    requires AttemptsKill(c, s.memory, pid, env) && env.killOk
    ensures var s' := Respond(c, s, pid, env, cause);
            && (forall x :: x in s'.window <==> x in s.window && PidOf(x) != Some(pid))
            && Score(s'.window) == Score(s.window) - Share(s.window, pid)
            && (forall q :: q != pid ==> Share(s'.window, q) == Share(s.window, q))
            && pid in s'.memory.killed
  {
    ForgettingKeepsTheOthers(s.window, pid);
    ForgettingRemovesExactlyTheShare(s.window, pid);
    forall q | q != pid
      ensures Share(Filter(s.window, NotNamedBy(pid)), q) == Share(s.window, q)
    {
      ForgettingKeepsOtherShares(s.window, pid, q);
    }
  }

  /** After a kill the accusing signal is gone from the window exactly when the two PID key orders agree on it. */
  lemma AccuserForgottenIff(c: Setup, s: State, sig: Signal, env: Env, cause: Cause)
    requires sig in s.window && ExtractPid(sig).Some?
    requires AttemptsKill(c, s.memory, ExtractPid(sig).value, env) && env.killOk
    ensures sig !in Respond(c, s, ExtractPid(sig).value, env, cause).window <==> !ConflictingPidKeys(sig)
  {
    PidOrdersAgree(sig);
    FilterMembers(s.window, NotNamedBy(ExtractPid(sig).value));
  }

  // -------------------------------------------------------------- responder

  /** The error text recorded with an action, as a value. */
  function NoteFor(c: Setup, m: Memory, pid: int, env: Env): Note {
    if pid == c.own then OwnPid
    else if IsNeverKill(c.names, env.lookup) then OnNeverKillList
    else if env.allow.Allowed? then OnAllowlist
    else if FullyHandled(m, pid) then AlreadyHandled
    else if m.mode == OFF then ModeOff
    else
      var raised := RequestsQuarantine(c, m, pid, env) && env.bridge.value.SendRaised?;
      var missed := AttemptsKill(c, m, pid, env) && !env.killOk;
      if raised && missed then BothFailed
      else if raised then QuarantineFailed
      else if missed then TerminateFailed
      else NoError
  }

  function ReasonOf(sig: Signal): string {
    sig.detector + "/" + sig.name
  }

  function ParentReasonOf(sig: Signal, pid: int): string {
    ReasonOf(sig) + " (parent of pid=" + Decimal(pid) + ")"
  }

  function OrHint(text: string, hint: string): string {
    if text != "" then text else hint
  }

  /** The action of a response that no gate refused. */
  function ReportOf(c: Setup, m: Memory, pid: int, reason: string, name: string, cmdline: string, env: Env)
    : KillAction
  {
    var m' := Remember(c, m, pid, env);
    KillAction(pid, name, cmdline, reason, m.mode,
               m.mode != OFF && pid in m'.quarantined, m.mode != OFF && pid in m'.killed, NoteFor(c, m, pid, env))
  }

  /** The action a response returns. A refusal names no process; flags are down for a refusal and in OFF mode, and
      otherwise say what is remembered once the response is over. */
  function ActionOf(c: Setup, m: Memory, pid: int, reason: string, nameHint: string, cmdHint: string, env: Env)
    : KillAction
  {
    if Refuses(c, pid, env) then KillAction(pid, "", "", reason, m.mode, false, false, NoteFor(c, m, pid, env))
    else ReportOf(c, m, pid, reason, OrHint(env.lookup.name, nameHint), OrHint(env.lookup.cmdline, cmdHint), env)
  }

  /** The history after a response: a PID that needed nothing more is not recorded again. */
  function Recorded(actions: seq<KillAction>, action: KillAction): seq<KillAction> {
    if action.note == AlreadyHandled then actions else Tail(actions + [action], ACTION_HISTORY)
  }

  function ObservedAction(m: Memory, pid: int, sig: Signal, env: Env): KillAction {
    KillAction(
      pid,
      OrHint(env.lookup.name, TextUnder(sig.metadata, "process")),
      OrHint(env.lookup.cmdline, TextUnder(sig.metadata, "cmdline")),
      ReasonOf(sig), m.mode, false, false, ObservedOnly)
  }

  function AccusedAction(c: Setup, m: Memory, sig: Signal, env: Env): KillAction
    requires Actionable(sig)
  {
    ActionOf(c, m, ExtractPid(sig).value, ReasonOf(sig), TextUnder(sig.metadata, "process"),
             TextUnder(sig.metadata, "cmdline"), env)
  }

  /** The history after the reaction to a signal: nothing for a signal that accuses nobody or is not severe, one entry
      for an uncorroborated one, and otherwise one for each PID responded to, the parent's made with the memory that
      the first response left. */
  ghost function HistoryAfter(
    c: Setup, s: State, actions: seq<KillAction>, sig: Signal, env: Env, parentEnv: Env): seq<KillAction>
  {
    if !Actionable(sig) then actions
    else
      var pid := ExtractPid(sig).value;
      if !Warrants(sig, s.window) then Tail(actions + [ObservedAction(s.memory, pid, sig, env)], ACTION_HISTORY)
      else
        var first := Recorded(actions, AccusedAction(c, s.memory, sig, env));
        if !Escalates(c, sig) then first
        else
          Recorded(first, ActionOf(c, Remember(c, s.memory, pid, env), ExtractParentPid(sig).value,
                                   ParentReasonOf(sig, pid), "", "", parentEnv))
  }

  /** An action tells the truth about the response. A refusal or OFF mode leaves both flags down and nothing changed.
      Otherwise a flag is up exactly when the responder remembers the PID afterwards; in KILL mode the termination flag
      is up exactly when no termination failed. */
  lemma FlagsTellTheTruth(c: Setup, m: Memory, pid: int, reason: string, nameHint: string, cmdHint: string, env: Env)
    ensures var a, m' := ActionOf(c, m, pid, reason, nameHint, cmdHint, env), Remember(c, m, pid, env);
            && a.pid == pid && a.reason == reason && a.mode == m.mode
            && (!GatesPass(c, pid, env) || m.mode == OFF ==> m' == m && !a.terminated && !a.quarantined)
            && (GatesPass(c, pid, env) && m.mode != OFF ==>
                  (a.terminated <==> pid in m'.killed) && (a.quarantined <==> pid in m'.quarantined))
            && (GatesPass(c, pid, env) && m.mode == KILL ==>
                  (a.terminated <==> a.note != TerminateFailed && a.note != BothFailed)
                  && (a.terminated <==> pid in m.killed || env.killOk))
            && (GatesPass(c, pid, env) && m.mode == QUARANTINE ==>
                  (a.quarantined <==> pid in m.quarantined || env.bridge == Some(Acknowledged)))
  {
    UnprotectedIff(c.names, env.lookup);
  }

  /** The note of an action names the first gate that refused, or what kept the response from being complete. */
  lemma NoteTellsWhy(c: Setup, m: Memory, pid: int, env: Env)
    ensures var note := NoteFor(c, m, pid, env);
            var killsNow := m.mode == KILL && pid !in m.killed;
            var asksKernel := pid !in m.quarantined && env.bridge == Some(SendRaised);
            && (note == OwnPid <==> pid == c.own)
            && (note == OnNeverKillList <==> pid != c.own && !Unprotected(c.names, env.lookup))
            && (note == OnAllowlist <==>
                pid != c.own && Unprotected(c.names, env.lookup) && env.allow == Allowed)
            && (GatesPass(c, pid, env) ==>
                  && (note == AlreadyHandled <==>
                      (m.mode == KILL && pid in m.killed) || (m.mode == QUARANTINE && pid in m.quarantined))
                  && (note == ModeOff <==> m.mode == OFF)
                  && (note == TerminateFailed <==> killsNow && !env.killOk && !asksKernel)
                  && (note == BothFailed <==> killsNow && !env.killOk && asksKernel)
                  && (note == QuarantineFailed <==>
                      asksKernel && ((killsNow && env.killOk) || m.mode == QUARANTINE)))
  {
    UnprotectedIff(c.names, env.lookup);
  }

  /** An action names the process as the lookup does, or else as the detector did; a refusal names none. */
  lemma ActionNamesProcess(c: Setup, m: Memory, pid: int, reason: string, nameHint: string, cmdHint: string, env: Env)
    ensures var a := ActionOf(c, m, pid, reason, nameHint, cmdHint, env);
            && (!GatesPass(c, pid, env) ==> a.processName == "" && a.cmdline == "")
            && (GatesPass(c, pid, env) ==>
                  && (env.lookup.name != "" ==> a.processName == env.lookup.name)
                  && (env.lookup.name == "" ==> a.processName == nameHint)
                  && (env.lookup.cmdline != "" ==> a.cmdline == env.lookup.cmdline)
                  && (env.lookup.cmdline == "" ==> a.cmdline == cmdHint))
  {
    UnprotectedIff(c.names, env.lookup);
  }

  /** What a response adds to the history: nothing for a PID that passed the gates and needed nothing more. */
  function Entries(c: Setup, m: Memory, pid: int, env: Env, a: KillAction): seq<KillAction> {
    if GatesPass(c, pid, env) && ((m.mode == KILL && pid in m.killed) || (m.mode == QUARANTINE && pid in m.quarantined))
    then []
    else [a]
  }

  lemma HandledIff(c: Setup, m: Memory, pid: int, env: Env)
    ensures NoteFor(c, m, pid, env) == AlreadyHandled <==> GatesPass(c, pid, env) && FullyHandled(m, pid)
  {
    UnprotectedIff(c.names, env.lookup);
  }

  lemma RecordedIsTail(c: Setup, m: Memory, pid: int, env: Env, actions: seq<KillAction>, a: KillAction)
    requires |actions| <= 1000 && a.note == NoteFor(c, m, pid, env)
    ensures Recorded(actions, a) == Tail(actions + Entries(c, m, pid, env, a), 1000)
  {
    HandledIff(c, m, pid, env);
    assert actions + [] == actions;
  }

  lemma EndOfConcat<T>(xs: seq<T>, ys: seq<T>, n: nat)
    requires n <= |ys|
    ensures Tail(xs + ys, n) == Tail(ys, n)
  {
    assert Tail(xs + ys, n) == (xs + ys)[|xs| + (|ys| - n)..] == ys[|ys| - n..];
  }

  lemma TailOfTail<T>(xs: seq<T>, zs: seq<T>, n: nat)
    ensures Tail(Tail(xs, n) + zs, n) == Tail(xs + zs, n)
  {
    if n < |xs| {
      var cut, kept := xs[..|xs| - n], Tail(xs, n);
      assert xs + zs == cut + (kept + zs);
      EndOfConcat(cut, kept + zs, n);
    }
  }

  /** What a signal adds to the history: nothing when it names no PID or is neither HIGH nor CRITICAL. */
  lemma QuietSignalsLeaveNoTrace(
    c: Setup, s: State, actions: seq<KillAction>, sig: Signal, env: Env, parentEnv: Env)
    requires ExtractPid(sig) == None || (sig.severity != HIGH && sig.severity != CRITICAL)
    ensures HistoryAfter(c, s, actions, sig, env, parentEnv) == actions
    ensures React(c, s, sig, env, parentEnv) == s
  {
  }

  /** One entry, with both flags down and the detector's hints where the lookup is empty, when the evidence does not
      suffice. */
  lemma UncorroboratedIsObserved(
    c: Setup, s: State, actions: seq<KillAction>, sig: Signal, env: Env, parentEnv: Env, pid: int)
    requires ExtractPid(sig) == Some(pid) && (sig.severity == HIGH || sig.severity == CRITICAL)
    requires !Warrants(sig, s.window)
    ensures var h := HistoryAfter(c, s, actions, sig, env, parentEnv);
            && h != [] && h == Tail(actions + [Last(h)], 1000)
            && var a := Last(h);
               && a.pid == pid && a.reason == sig.detector + "/" + sig.name && a.mode == s.memory.mode
               && !a.quarantined && !a.terminated && a.note == ObservedOnly
               && a.processName ==
                  (if env.lookup.name == "" then TextUnder(sig.metadata, "process") else env.lookup.name)
               && a.cmdline ==
                  (if env.lookup.cmdline == "" then TextUnder(sig.metadata, "cmdline") else env.lookup.cmdline)
    ensures React(c, s, sig, env, parentEnv) == s
  {
  }

  /** Otherwise one entry for the accused PID and one for the parent of a tool, the second with what the first response
      left, and neither when its PID needed nothing more. */
  lemma ReactionIsRecorded(
    c: Setup, s: State, actions: seq<KillAction>, sig: Signal, env: Env, parentEnv: Env, pid: int)
    requires |actions| <= 1000 && ExtractPid(sig) == Some(pid) && Warrants(sig, s.window)
    ensures var reason := sig.detector + "/" + sig.name;
            var hint, cmdHint := TextUnder(sig.metadata, "process"), TextUnder(sig.metadata, "cmdline");
            var first := ActionOf(c, s.memory, pid, reason, hint, cmdHint, env);
            var own := actions + Entries(c, s.memory, pid, env, first);
            var parent, m := ExtractParentPid(sig), Respond(c, s, pid, env, Accused(sig, s.window)).memory;
            HistoryAfter(c, s, actions, sig, env, parentEnv) ==
            if parent != None && parent != Some(pid) && IsLolbinSignal(c.names, sig)
            then
              var parentReason := reason + " (parent of pid=" + Decimal(pid) + ")";
              var second := ActionOf(c, m, parent.value, parentReason, "", "", parentEnv);
              Tail(own + Entries(c, m, parent.value, parentEnv, second), 1000)
            else Tail(own, 1000)
  {
    var first := AccusedAction(c, s.memory, sig, env);
    RecordedIsTail(c, s.memory, pid, env, actions, first);
    if Escalates(c, sig) {
      var m, q := Remember(c, s.memory, pid, env), ExtractParentPid(sig).value;
      var second := ActionOf(c, m, q, ParentReasonOf(sig, pid), "", "", parentEnv);
      RecordedIsTail(c, m, q, parentEnv, Recorded(actions, first), second);
      TailOfTail(actions + Entries(c, s.memory, pid, env, first), Entries(c, m, q, parentEnv, second), 1000);
    }
  }

  /** A PID that passed the gates and gets no response is reported as it is remembered, or in OFF mode with both flags
      down. */
  lemma IdleReport(c: Setup, m: Memory, pid: int, reason: string, name: string, cmdline: string, env: Env)
    requires !Refuses(c, pid, env) && !Acts(c, m, pid, env)
    ensures ReportOf(c, m, pid, reason, name, cmdline, env) ==
            if m.mode == OFF then KillAction(pid, name, cmdline, reason, OFF, false, false, ModeOff)
            else KillAction(pid, name, cmdline, reason, m.mode, pid in m.quarantined, pid in m.killed, AlreadyHandled)
  {
  }

  lemma IdleResponse(c: Setup, s: State, pid: int, env: Env, cause: Cause)
    requires !Acts(c, s.memory, pid, env)
    ensures Respond(c, s, pid, env, cause) == s
  {
    assert s.log + [] == s.log;
  }

  class ProcessResponder {
    const engine: ScoringEngine
    const setup: Setup
    var mode: Mode
    var alreadyKilled: set<int>
    var alreadyQuarantined: set<int>
    var actions: seq<KillAction>
    ghost var log: seq<LogEntry>

    ghost predicate Valid()
      reads this, engine
    {
      engine.Valid() && engine.window == setup.seconds
    }

    ghost function View(): State
      reads this, engine
    {
      State(Memory(mode, alreadyKilled, alreadyQuarantined), engine.signals, log)
    }

    constructor (engine: ScoringEngine, setup: Setup, mode: Mode)
      requires engine.Valid() && engine.window == setup.seconds
      ensures Valid() && this.engine == engine && this.setup == setup
      ensures View() == State(Memory(mode, {}, {}), engine.signals, [])
    {
      this.engine, this.setup, this.mode := engine, setup, mode;
      alreadyKilled, alreadyQuarantined, actions := {}, {}, [];
      log := [];
    }

    /** A mode change neither forgets nor repeats anything. */
    method ChangeMode(mode: Mode)
      requires Valid()
      modifies this`mode
      ensures Valid() && View() == Step(setup, old(View()), SetMode(mode))
    {
      this.mode := mode;
    }

    method Record(action: KillAction)
      modifies this`actions
      ensures actions == Tail(old(actions) + [action], 1000)
    {
      actions := actions + [action];
      if |actions| > ACTION_HISTORY {
        actions := actions[|actions| - ACTION_HISTORY..];
      }
    }

    method Noop(pid: int, reason: string, why: Note) returns (action: KillAction)
      modifies this`actions
      ensures action == KillAction(pid, "", "", reason, mode, false, false, why)
      ensures actions == Tail(old(actions) + [action], 1000)
    {
      action := KillAction(pid, "", "", reason, mode, false, false, why);
      Record(action);
    }

    /** Respond to one PID. */
    method RespondToPid(pid: int, reason: string, nameHint: string, cmdHint: string, env: Env, ghost cause: Cause)
      returns (action: KillAction)
      requires Valid()
      modifies this`alreadyKilled, this`alreadyQuarantined, this`actions, this`log, engine`signals
      ensures Valid() && View() == Respond(setup, old(View()), pid, env, cause)
      ensures action == ActionOf(setup, old(View().memory), pid, reason, nameHint, cmdHint, env)
      ensures actions == Recorded(old(actions), action)
    {
      if pid == setup.own {
        action := Noop(pid, reason, OwnPid);
        return;
      }
      var procName, cmdline := env.lookup.name, env.lookup.cmdline;
      if IsNeverKill(setup.names, env.lookup) {
        action := Noop(pid, reason, OnNeverKillList);
        return;
      }
      if env.allow.Allowed? {
        action := Noop(pid, reason, OnAllowlist);
        return;
      }
      if procName == "" && nameHint != "" {
        procName := nameHint;
      }
      if cmdline == "" && cmdHint != "" {
        cmdline := cmdHint;
      }
      action := RespondPastGates(pid, reason, procName, cmdline, env, cause);
    }

    /** The rest of a response, once every gate has let the PID through. */
    method RespondPastGates(pid: int, reason: string, procName: string, cmdline: string, env: Env, ghost cause: Cause)
      returns (action: KillAction)
      requires Valid() && !Refuses(setup, pid, env)
      modifies this`alreadyKilled, this`alreadyQuarantined, this`actions, this`log, engine`signals
      ensures Valid() && View() == Respond(setup, old(View()), pid, env, cause)
      ensures action == ReportOf(setup, old(View().memory), pid, reason, procName, cmdline, env)
      ensures actions == Recorded(old(actions), action)
    {
      if (mode == KILL && pid in alreadyKilled) || (mode == QUARANTINE && pid in alreadyQuarantined) {
        IdleResponse(setup, View(), pid, env, cause);
        IdleReport(setup, View().memory, pid, reason, procName, cmdline, env);
        return KillAction(pid, procName, cmdline, reason, mode,
                          pid in alreadyQuarantined, pid in alreadyKilled, AlreadyHandled);
      }
      if mode == OFF {
        IdleResponse(setup, View(), pid, env, cause);
        IdleReport(setup, View().memory, pid, reason, procName, cmdline, env);
        action := KillAction(pid, procName, cmdline, reason, mode, false, false, ModeOff);
        Record(action);
        return;
      }
      var quarantined, terminated, note := Act(pid, env, cause);
      action := KillAction(pid, procName, cmdline, reason, mode, quarantined, terminated, note);
      Record(action);
    }

    /** Quarantine and, in KILL mode, terminate a PID that passed every gate. */
    method Act(pid: int, env: Env, ghost cause: Cause) returns (quarantined: bool, terminated: bool, note: Note)
      requires Valid() && Acts(setup, View().memory, pid, env)
      modifies this`alreadyKilled, this`alreadyQuarantined, this`log, engine`signals
      ensures Valid() && View() == Respond(setup, old(View()), pid, env, cause)
      ensures terminated == (pid in alreadyKilled) && quarantined == (pid in alreadyQuarantined)
      ensures note == NoteFor(setup, old(View().memory), pid, env) && note != AlreadyHandled
    {
      ghost var before := View();
      var raised, missed: bool;
      quarantined, raised := AskKernel(pid, env, cause);
      terminated, missed := TerminateIfDue(pid, env, cause);
      note :=
        if raised && missed then BothFailed
        else if raised then QuarantineFailed
        else if missed then TerminateFailed
        else NoError;
      Regroup(before.log,
              if RequestsQuarantine(setup, before.memory, pid, env)
              then [QuarantineRequest(pid, mode, env, cause)] else [],
              if AttemptsKill(setup, before.memory, pid, env) then [Termination(pid, mode, env, cause)] else []);
    }

    /** Have the kernel block the PID unless that has been done, and remember it when the kernel says so. */
    method AskKernel(pid: int, env: Env, ghost cause: Cause) returns (quarantined: bool, raised: bool)
      modifies this`alreadyQuarantined, this`log
      ensures var asks := env.bridge.Some? && pid !in old(alreadyQuarantined);
              && alreadyQuarantined ==
                 old(alreadyQuarantined) + (if asks && env.bridge == Some(Acknowledged) then {pid} else {})
              && raised == (asks && env.bridge == Some(SendRaised))
              && log == old(log) + if asks then [QuarantineRequest(pid, mode, env, cause)] else []
      ensures quarantined == (pid in alreadyQuarantined)
    {
      quarantined, raised := pid in alreadyQuarantined, false;
      if env.bridge.Some? && !quarantined {
        log := log + [QuarantineRequest(pid, mode, env, cause)];
        match env.bridge.value {
          case Acknowledged => quarantined := true;
          case Refused =>
          case SendRaised => raised := true;
        }
        if quarantined {
          alreadyQuarantined := alreadyQuarantined + {pid};
        }
      }
    }

    /** In KILL mode, terminate the PID unless that has been done; a success clears its signals. */
    method TerminateIfDue(pid: int, env: Env, ghost cause: Cause) returns (terminated: bool, missed: bool)
      requires Valid()
      modifies this`alreadyKilled, this`log, engine`signals
      ensures var due := mode == KILL && pid !in old(alreadyKilled);
              && alreadyKilled == old(alreadyKilled) + (if due && env.killOk then {pid} else {})
              && missed == (due && !env.killOk)
              && engine.signals ==
                 (if due && env.killOk then Filter(old(engine.signals), NotNamedBy(pid)) else old(engine.signals))
              && log == old(log) + if due then [Termination(pid, mode, env, cause)] else []
      ensures Valid() && terminated == (pid in alreadyKilled)
    {
      terminated, missed := pid in alreadyKilled, false;
      if mode == KILL && !terminated {
        log := log + [Termination(pid, mode, env, cause)];
        terminated := env.killOk;
        if !terminated {
          missed := true;
        } else {
          alreadyKilled := alreadyKilled + {pid};
          var _ := engine.ForgetPid(pid);
        }
      }
    }

    method IsConfident(pid: int, sig: Signal, now: real) returns (confident: bool)
      requires Valid() && engine.clock == now && Settled(engine.signals, now - engine.window)
      modifies engine`signals, engine`clock
      ensures Valid() && engine.clock == now && engine.signals == old(engine.signals)
      ensures confident == Confident(pid, sig, engine.signals)
    {
      if sig.severity == CRITICAL {
        return true;
      }
      var corroborated := engine.FindEncryptionActivity(Some(sig.id), now);
      if corroborated {
        return true;
      }
      var recent := engine.RecentSignals(CORROBORATION_LIMIT, now);
      confident := CountDetectors(pid, recent);
    }

    /** Collect the detectors that name the PID, stopping at the second. */
    static method CountDetectors(pid: int, recent: seq<Signal>) returns (two: bool)
      ensures two == TwoDetectorsName(pid, recent)
    {
      var detectors: set<string> := {};
      ghost var first: Option<Signal> := None;
      for i := 0 to |recent|
        invariant detectors == if first.Some? then {first.value.detector} else {}
        invariant first.Some? ==> first.value in recent && ExtractPid(first.value) == Some(pid)
        invariant forall j :: 0 <= j < i && ExtractPid(recent[j]) == Some(pid) ==> recent[j].detector in detectors
      {
        var other := recent[i];
        if ExtractPid(other) == Some(pid) {
          detectors := detectors + {other.detector};
          if first.Some? && first.value.detector != other.detector {
            assert |detectors| == 2;
            assert other in recent;
          } else {
            first := Some(other);
            assert detectors == {other.detector};
          }
        }
        if |detectors| >= 2 {
          return true;
        }
      }
      return false;
    }

    /** React to a signal that the engine has just taken in. */
    method Dispatch(sig: Signal, now: real, env: Env, parentEnv: Env)
      requires Valid() && engine.clock == now && Settled(engine.signals, now - engine.window)
      modifies this`alreadyKilled, this`alreadyQuarantined, this`actions, this`log, engine`signals, engine`clock
      ensures Valid() && engine.clock == now
      ensures View() == React(setup, old(View()), sig, env, parentEnv)
      ensures actions == HistoryAfter(setup, old(View()), old(actions), sig, env, parentEnv)
    {
      var accused := ExtractPid(sig);
      ghost var before := View();
      if accused.None? || (sig.severity != HIGH && sig.severity != CRITICAL) {
        NoReaction(setup, before, sig, env, parentEnv);
        return;
      }
      JudgeAndRespond(sig, accused.value, now, env, parentEnv);
    }

    method JudgeAndRespond(sig: Signal, pid: int, now: real, env: Env, parentEnv: Env)
      requires Valid() && engine.clock == now && Settled(engine.signals, now - engine.window)
      requires Actionable(sig) && ExtractPid(sig) == Some(pid)
      modifies this`alreadyKilled, this`alreadyQuarantined, this`actions, this`log, engine`signals, engine`clock
      ensures Valid() && engine.clock == now
      ensures View() == React(setup, old(View()), sig, env, parentEnv)
      ensures actions == HistoryAfter(setup, old(View()), old(actions), sig, env, parentEnv)
    {
      ghost var before := View();
      var confident := IsConfident(pid, sig, now);
      assert View() == before;
      if confident {
        RespondAndEscalate(sig, pid, env, parentEnv);
      } else {
        NoReaction(setup, before, sig, env, parentEnv);
        var _ := RecordObserved(pid, sig, env);
      }
    }

    /** Respond to the accused PID and, for a tool that malware drives, to the parent that started it. */
    method RespondAndEscalate(sig: Signal, pid: int, env: Env, parentEnv: Env)
      requires Valid() && Actionable(sig) && ExtractPid(sig) == Some(pid)
      requires Confident(pid, sig, engine.signals)
      modifies this`alreadyKilled, this`alreadyQuarantined, this`actions, this`log, engine`signals
      ensures Valid() && View() == React(setup, old(View()), sig, env, parentEnv)
      ensures actions == HistoryAfter(setup, old(View()), old(actions), sig, env, parentEnv)
    {
      ghost var window := engine.signals;
      var hint, cmdHint := TextUnder(sig.metadata, "process"), TextUnder(sig.metadata, "cmdline");
      var _ := RespondToPid(pid, ReasonOf(sig), hint, cmdHint, env, Accused(sig, window));
      var parent := ExtractParentPid(sig);
      if parent.Some? && parent.value != pid && IsLolbinSignal(setup.names, sig) {
        var _ := RespondToPid(parent.value, ParentReasonOf(sig, pid), "", "", parentEnv, ParentOf(sig, window));
      }
    }

    /** A suspicious signal without corroboration is recorded and nothing else happens. */
    method RecordObserved(pid: int, sig: Signal, env: Env) returns (action: KillAction)
      modifies this`actions
      ensures action == ObservedAction(View().memory, pid, sig, env)
      ensures actions == Tail(old(actions) + [action], 1000)
    {
      var hint, cmdHint := TextUnder(sig.metadata, "process"), TextUnder(sig.metadata, "cmdline");
      action := KillAction(
        pid,
        if env.lookup.name != "" then env.lookup.name else hint,
        if env.lookup.cmdline != "" then env.lookup.cmdline else cmdHint,
        ReasonOf(sig), mode, false, false, ObservedOnly);
      Record(action);
    }

    /** Submission as a whole: the engine takes the signal in and its listener reacts. */
    method OnSignal(sig: Signal, classifier: Classifier, now: real, env: Env, parentEnv: Env)
      requires Valid() && engine.clock <= now
      modifies this, engine
      ensures Valid() && engine.clock == now
      ensures View() ==
              Step(setup, old(View()), SignalArrives(sig, classifier, now, env, parentEnv))
      ensures var joined := AfterSubmit(old(engine.signals), setup.seconds, sig, classifier, now);
              actions == HistoryAfter(setup, old(View()).(window := joined), old(actions),
                                      Stamp(sig, classifier), env, parentEnv)
    {
      ghost var joined := engine.signals + [Stamp(sig, classifier)];
      var stamped, _, _ := engine.Submit(sig, classifier, now);
      EvictSettles(joined, now - engine.window);
      Dispatch(stamped, now, env, parentEnv);
    }

    method KillManually(pid: int, reason: string, env: Env) returns (action: KillAction)
      requires Valid()
      modifies this`alreadyKilled, this`alreadyQuarantined, this`actions, this`log, engine`signals
      ensures Valid() && View() == Step(setup, old(View()), ManualKill(pid, env))
      ensures action == ActionOf(setup, old(View().memory), pid, reason, "", "", env)
      ensures actions == Recorded(old(actions), action)
    {
      action := RespondToPid(pid, reason, "", "", env, Manual);
    }

    /** Forget the PID and lift the kernel block; without a minifilter that succeeds at once. The answer is the
        bridge's own, and an exception of the bridge is the caller's, after both memories have forgotten the PID. */
    method ReleaseManually(pid: int, bridge: Option<BridgeReply>) returns (answer: BridgeReply)
      requires Valid()
      modifies this`alreadyKilled, this`alreadyQuarantined, this`log
      ensures Valid() && View() == Step(setup, old(View()), ManualRelease(pid))
      ensures answer == if bridge.Some? then bridge.value else Acknowledged
    {
      alreadyKilled := alreadyKilled - {pid};
      alreadyQuarantined := alreadyQuarantined - {pid};
      log := log + [Release(pid)];
      if bridge.Some? {
        return bridge.value;
      }
      return Acknowledged;
    }
  }
}
