/** Detector signals: metadata lookups, actor trust and the three signal-name sets. */
module Signals {
  import opened Collections

  datatype Severity = INFO | LOW | MEDIUM | HIGH | CRITICAL

  /** A metadata value. Booleans count as integers, as they do in the detectors' language. */
  datatype MetaValue =
    | IntValue(n: int)
    | BoolValue(b: bool)
    | TextValue(text: string)
    | OtherValue(truthy: bool)

  type Metadata = map<string, MetaValue>

  /** `id` stands for object identity: two signals with equal fields are still two signals. */
  datatype Signal = Signal(
    id: nat,
    detector: string,
    name: string,
    weight: int,
    severity: Severity,
    metadata: Metadata,
    timestamp: real)

  const ENCRYPTION_SIGNAL_NAMES: set<string> := {
    "magic_bytes_lost", "high_entropy_write", "modify_burst",
    "suspicious_extension",
    "canary_modified", "canary_deleted",
    "ransom_note_dropped", "ransom_note_spread",
    "kernel_write_burst", "kernel_rename_burst", "kernel_blocked_op"
  }

  const CORRELATION_GATED_NAMES: set<string> := {"file_delete"}

  const GROUND_TRUTH_ENCRYPTION: set<string> := {
    "canary_modified", "canary_deleted",
    "magic_bytes_lost", "suspicious_extension",
    "ransom_note_spread",
    "kernel_blocked_op"
  }

  /** The key order used when a score is attributed to a PID. */
  const SCORE_PID_KEYS: seq<string> := ["pid", "ProcessId", "process_id", "child_pid"]

  /** The key order used when a PID is picked for a response. */
  const RESPONSE_PID_KEYS: seq<string> := ["pid", "ProcessId", "child_pid", "process_id"]

  const PARENT_PID_KEYS: seq<string> := ["ppid", "parent_pid", "ParentProcessId"]

  function PositiveInt(v: MetaValue): (r: Option<int>)
    ensures r.Some? ==> 0 < r.value
  {
    match v
    case IntValue(n) => if 0 < n then Some(n) else None
    case BoolValue(b) => if b then Some(1) else None
    case _ => None
  }

  function Truthy(v: MetaValue): bool {
    match v
    case IntValue(n) => n != 0
    case BoolValue(b) => b
    case TextValue(s) => s != ""
    case OtherValue(t) => t
  }

  /** The first key of `keys` that carries a positive integer. */
  function FirstPid(meta: Metadata, keys: seq<string>): (r: Option<int>)
    ensures r.Some? ==> 0 < r.value
  {
    if keys == [] then None
    else if keys[0] in meta && PositiveInt(meta[keys[0]]).Some? then PositiveInt(meta[keys[0]])
    else FirstPid(meta, keys[1..])
  }

  function PidOf(sig: Signal): (r: Option<int>)
    ensures r.Some? ==> 0 < r.value
  {
    FirstPid(sig.metadata, SCORE_PID_KEYS)
  }

  function ExtractPid(sig: Signal): (r: Option<int>)
    ensures r.Some? ==> 0 < r.value
  {
    FirstPid(sig.metadata, RESPONSE_PID_KEYS)
  }

  function ExtractParentPid(sig: Signal): (r: Option<int>)
    ensures r.Some? ==> 0 < r.value
  {
    FirstPid(sig.metadata, PARENT_PID_KEYS)
  }

  function PidUnder(meta: Metadata, key: string): (r: Option<int>) {
    if key in meta then PositiveInt(meta[key]) else None
  }

  /** The two key orders disagree on a signal exactly when neither `pid` nor `ProcessId` decides and the
      two remaining keys carry different PIDs. */
  predicate ConflictingPidKeys(sig: Signal) {
    && PidUnder(sig.metadata, "pid").None?
    && PidUnder(sig.metadata, "ProcessId").None?
    && PidUnder(sig.metadata, "process_id").Some?
    && PidUnder(sig.metadata, "child_pid").Some?
    && PidUnder(sig.metadata, "process_id") != PidUnder(sig.metadata, "child_pid")
  }

  lemma FirstPidOfFour(meta: Metadata, a: string, b: string, c: string, d: string)
    ensures FirstPid(meta, [a, b, c, d]) ==
            if PidUnder(meta, a).Some? then PidUnder(meta, a)
            else if PidUnder(meta, b).Some? then PidUnder(meta, b)
            else if PidUnder(meta, c).Some? then PidUnder(meta, c)
            else PidUnder(meta, d)
  {
    assert [a, b, c, d][1..] == [b, c, d];
    assert [b, c, d][1..] == [c, d];
    assert [c, d][1..] == [d];
    assert FirstPid(meta, [d]) == PidUnder(meta, d);
    assert FirstPid(meta, [c, d]) == if PidUnder(meta, c).Some? then PidUnder(meta, c) else PidUnder(meta, d);
    assert FirstPid(meta, [b, c, d]) ==
           if PidUnder(meta, b).Some? then PidUnder(meta, b) else FirstPid(meta, [c, d]);
  }

  /** Scoring and responding attribute a signal to the same PID unless the last two keys conflict. */
  lemma PidOrdersAgree(sig: Signal)
    ensures PidOf(sig) == ExtractPid(sig) <==> !ConflictingPidKeys(sig)
    ensures PidOf(sig).Some? <==> ExtractPid(sig).Some?
  {
    FirstPidOfFour(sig.metadata, "pid", "ProcessId", "process_id", "child_pid");
    FirstPidOfFour(sig.metadata, "pid", "ProcessId", "child_pid", "process_id");
  }

  /** The metadata holds the positive integer p under the key; a boolean true is the integer 1. */
  predicate Holds(meta: Metadata, key: string, p: int) {
    key in meta && ((meta[key] == IntValue(p) && 0 < p) || (meta[key] == BoolValue(true) && p == 1))
  }

  ghost predicate HoldsNone(meta: Metadata, key: string) {
    forall p :: !Holds(meta, key, p)
  }

  lemma PidUnderHolds(meta: Metadata, key: string, p: int)
    ensures PidUnder(meta, key) == Some(p) <==> Holds(meta, key, p)
    ensures PidUnder(meta, key) == None <==> HoldsNone(meta, key)
  {
    if PidUnder(meta, key).Some? {
      assert Holds(meta, key, PidUnder(meta, key).value);
    }
  }

  /** The first of four keys that holds a positive integer holds p. */
  ghost predicate FirstOfFour(meta: Metadata, a: string, b: string, c: string, d: string, p: int) {
    || Holds(meta, a, p)
    || (HoldsNone(meta, a) && Holds(meta, b, p))
    || (HoldsNone(meta, a) && HoldsNone(meta, b) && Holds(meta, c, p))
    || (HoldsNone(meta, a) && HoldsNone(meta, b) && HoldsNone(meta, c) && Holds(meta, d, p))
  }

  lemma FirstPidHolds(meta: Metadata, a: string, b: string, c: string, d: string, p: int)
    ensures FirstPid(meta, [a, b, c, d]) == Some(p) <==> FirstOfFour(meta, a, b, c, d, p)
    ensures FirstPid(meta, [a, b, c, d]) == None <==>
            HoldsNone(meta, a) && HoldsNone(meta, b) && HoldsNone(meta, c) && HoldsNone(meta, d)
  {
    FirstPidOfFour(meta, a, b, c, d);
    PidUnderHolds(meta, a, p);
    PidUnderHolds(meta, b, p);
    PidUnderHolds(meta, c, p);
    PidUnderHolds(meta, d, p);
  }

  /** The PID a signal scores for is the very number its metadata holds, under the first of these keys that holds a
      positive integer. */
  lemma ScoresForHeldPid(sig: Signal, p: int)
    ensures PidOf(sig) == Some(p) <==>
            FirstOfFour(sig.metadata, "pid", "ProcessId", "process_id", "child_pid", p)
    ensures PidOf(sig) == None <==>
            && HoldsNone(sig.metadata, "pid") && HoldsNone(sig.metadata, "ProcessId")
            && HoldsNone(sig.metadata, "process_id") && HoldsNone(sig.metadata, "child_pid")
  {
    FirstPidHolds(sig.metadata, "pid", "ProcessId", "process_id", "child_pid", p);
  }

  /** So is the PID it accuses, under its own order of the keys. */
  lemma AccusesHeldPid(sig: Signal, p: int)
    ensures ExtractPid(sig) == Some(p) <==>
            FirstOfFour(sig.metadata, "pid", "ProcessId", "child_pid", "process_id", p)
    ensures ExtractPid(sig) == None <==>
            && HoldsNone(sig.metadata, "pid") && HoldsNone(sig.metadata, "ProcessId")
            && HoldsNone(sig.metadata, "child_pid") && HoldsNone(sig.metadata, "process_id")
  {
    FirstPidHolds(sig.metadata, "pid", "ProcessId", "child_pid", "process_id", p);
  }

  lemma FirstPidOfThree(meta: Metadata, a: string, b: string, c: string)
    ensures FirstPid(meta, [a, b, c]) ==
            if PidUnder(meta, a).Some? then PidUnder(meta, a)
            else if PidUnder(meta, b).Some? then PidUnder(meta, b)
            else PidUnder(meta, c)
  {
    assert [a, b, c][1..] == [b, c];
    assert [b, c][1..] == [c];
    assert FirstPid(meta, [c]) == PidUnder(meta, c);
    assert FirstPid(meta, [b, c]) == if PidUnder(meta, b).Some? then PidUnder(meta, b) else PidUnder(meta, c);
  }

  /** And the parent's. */
  lemma ParentIsHeldPid(sig: Signal, p: int)
    ensures var meta := sig.metadata;
            ExtractParentPid(sig) == Some(p) <==>
            || Holds(meta, "ppid", p)
            || (HoldsNone(meta, "ppid") && Holds(meta, "parent_pid", p))
            || (HoldsNone(meta, "ppid") && HoldsNone(meta, "parent_pid") && Holds(meta, "ParentProcessId", p))
    ensures ExtractParentPid(sig) == None <==>
            && HoldsNone(sig.metadata, "ppid") && HoldsNone(sig.metadata, "parent_pid")
            && HoldsNone(sig.metadata, "ParentProcessId")
  {
    FirstPidOfThree(sig.metadata, "ppid", "parent_pid", "ParentProcessId");
    PidUnderHolds(sig.metadata, "ppid", p);
    PidUnderHolds(sig.metadata, "parent_pid", p);
    PidUnderHolds(sig.metadata, "ParentProcessId", p);
  }

  /** Was the actor stamped as trusted? Ground-truth evidence never is. */
  predicate Trusted(sig: Signal) {
    && sig.name !in GROUND_TRUTH_ENCRYPTION
    && "actor_trusted" in sig.metadata
    && Truthy(sig.metadata["actor_trusted"])
  }

  /** What counts as a stamp of trust: a boolean true, an integer other than 0, a text that is not empty, or any other
      value that its language takes for true; and for the six kinds of ground truth none does. */
  lemma TrustedIff(sig: Signal)
    ensures Trusted(sig) <==>
            && sig.name != "canary_modified" && sig.name != "canary_deleted"
            && sig.name != "magic_bytes_lost" && sig.name != "suspicious_extension"
            && sig.name != "ransom_note_spread" && sig.name != "kernel_blocked_op"
            && "actor_trusted" in sig.metadata
            && var stamp := sig.metadata["actor_trusted"];
               || stamp == BoolValue(true)
               || (stamp.IntValue? && stamp != IntValue(0))
               || (stamp.TextValue? && stamp != TextValue(""))
               || stamp == OtherValue(true)
  {
  }

  /** Untrusted evidence that encryption or destruction is under way. */
  predicate EncryptionEvidence(sig: Signal) {
    !Trusted(sig) && sig.name in ENCRYPTION_SIGNAL_NAMES
  }

  /** The evidence by name: the six kinds of ground truth, whatever their stamp, and five more kinds while untrusted. */
  lemma EvidenceIff(sig: Signal)
    ensures EncryptionEvidence(sig) <==>
            || sig.name == "canary_modified" || sig.name == "canary_deleted"
            || sig.name == "magic_bytes_lost" || sig.name == "suspicious_extension"
            || sig.name == "ransom_note_spread" || sig.name == "kernel_blocked_op"
            || (!Trusted(sig)
                && (|| sig.name == "high_entropy_write" || sig.name == "modify_burst"
                    || sig.name == "ransom_note_dropped"
                    || sig.name == "kernel_write_burst" || sig.name == "kernel_rename_burst"))
  {
  }

  /** Every ground-truth name is an encryption name, no gated name is, and so ground truth always counts as
      evidence whatever the stamp says. */
  lemma NameSets(sig: Signal)
    ensures GROUND_TRUTH_ENCRYPTION < ENCRYPTION_SIGNAL_NAMES
    ensures CORRELATION_GATED_NAMES !! ENCRYPTION_SIGNAL_NAMES
    ensures sig.name in GROUND_TRUTH_ENCRYPTION ==> EncryptionEvidence(sig)
  {
    assert "modify_burst" !in GROUND_TRUTH_ENCRYPTION;
    forall n | n in CORRELATION_GATED_NAMES
      ensures n !in ENCRYPTION_SIGNAL_NAMES
    {
      assert n == "file_delete";
      assert |"file_delete"| == 11;
    }
  }

  /** The text under a key, or the empty text. */
  function TextUnder(meta: Metadata, key: string): string {
    if key in meta && meta[key].TextValue? then meta[key].text else ""
  }
}
