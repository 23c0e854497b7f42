/** The responder with the operator allowlist behind its third gate. */
module Agent {
  import opened Collections
  import A = Allowlist
  import opened Responder

  /** The gate's verdict: what the list answers for the PID, or no objection when there is no list. */
  function Consult(list: Option<A.State>, pid: int, process: Option<A.Process>): AllowVerdict {
    if list.Some? && A.Lookup(list.value, pid, process).1 then Allowed else NotAllowed
  }

  /** The list is asked only about a PID that the gates before it let through. */
  predicate AsksList(c: Setup, pid: int, env: Env) {
    pid != c.own && !IsNeverKill(c.names, env.lookup)
  }

  /** In every history of the list and whatever its cache holds, a process that kept its name and image is let off
      exactly when a current entry admits it: by its name, or by its path component by component. */
  lemma ListedIffAdmitted(initial: seq<A.AllowEntry>, es: seq<A.Event>, pid: int, process: A.Process)
    requires 0 < pid && A.KeptReading(es, pid, process)
    ensures var list := A.Run(initial, es);
            Consult(Some(list), pid, Some(process)) == Allowed <==>
            exists e :: e in list.entries && A.Admits(e, process.name, process.exe)
  {
    A.CacheIsTransparent(initial, es, pid, Some(process));
    A.AllowedIffAdmitted(A.Run(initial, es).entries, process.name, process.exe);
  }

  /** So a listed process is never touched, whoever accuses it and in whatever mode: memory, window and log stay. */
  lemma ListedIsNeverTouched(
    c: Setup, s: State, initial: seq<A.AllowEntry>, es: seq<A.Event>, pid: int, process: A.Process, env: Env,
    cause: Cause, e: A.AllowEntry)
    requires 0 < pid && A.KeptReading(es, pid, process)
    requires e in A.Run(initial, es).entries && A.Admits(e, process.name, process.exe)
    ensures var verdict := Consult(Some(A.Run(initial, es)), pid, Some(process));
            Respond(c, s, pid, env.(allow := verdict), cause) == s
  {
    ListedIffAdmitted(initial, es, pid, process);
  }

  /** And with no listing the gate changes nothing: the PID is terminated exactly when the other gates allow it. */
  lemma UnlistedIsJudgedByTheRest(
    c: Setup, s: State, initial: seq<A.AllowEntry>, es: seq<A.Event>, pid: int, process: A.Process, env: Env)
    requires 0 < pid && A.KeptReading(es, pid, process)
    requires forall e :: e in A.Run(initial, es).entries ==> !A.Admits(e, process.name, process.exe)
    ensures var verdict := Consult(Some(A.Run(initial, es)), pid, Some(process));
            Killable(c, s, pid, env.(allow := verdict)) <==>
            s.memory.mode == KILL && pid !in s.memory.killed && AsksList(c, pid, env)
  {
    ListedIffAdmitted(initial, es, pid, process);
  }

  /** One response, the list being asked at its place in the order of the gates. */
  method RespondConsulting(
    responder: ProcessResponder, list: A.OperatorAllowlist, pid: int, process: Option<A.Process>, reason: string,
    nameHint: string, cmdHint: string, env: Env, ghost cause: Cause)
    returns (action: KillAction)
    requires responder.Valid()
    modifies responder`alreadyKilled, responder`alreadyQuarantined, responder`actions, responder`log
    modifies responder.engine`signals, list`cache
    ensures responder.Valid()
    ensures var verdict := Consult(Some(old(list.View())), pid, process);
            && responder.View() ==
               Respond(responder.setup, old(responder.View()), pid, env.(allow := verdict), cause)
            && action == ActionOf(responder.setup, old(responder.View().memory), pid, reason, nameHint, cmdHint,
                                  env.(allow := verdict))
            && responder.actions == Recorded(old(responder.actions), action)
    ensures list.View() == if AsksList(responder.setup, pid, env) then A.Lookup(old(list.View()), pid, process).0
                           else old(list.View())
  {
    ghost var verdict := Consult(Some(list.View()), pid, process);
    var allow := NotAllowed;
    if pid != responder.setup.own && !IsNeverKill(responder.setup.names, env.lookup) {
      var allowed := list.PidAllowed(pid, process);
      allow := if allowed then Allowed else NotAllowed;
    }
    GateNotReached(responder.setup, responder.View(), pid, env, cause, allow, verdict, reason, nameHint, cmdHint);
    action := responder.RespondToPid(pid, reason, nameHint, cmdHint, env.(allow := allow), cause);
  }

  /** What the list would have said does not matter to a PID that an earlier gate refuses. */
  lemma GateNotReached(
    c: Setup, s: State, pid: int, env: Env, cause: Cause, a: AllowVerdict, b: AllowVerdict, reason: string,
    nameHint: string, cmdHint: string)
    requires AsksList(c, pid, env) ==> a == b
    ensures Respond(c, s, pid, env.(allow := a), cause) == Respond(c, s, pid, env.(allow := b), cause)
    ensures ActionOf(c, s.memory, pid, reason, nameHint, cmdHint, env.(allow := a)) ==
            ActionOf(c, s.memory, pid, reason, nameHint, cmdHint, env.(allow := b))
  {
  }
}
