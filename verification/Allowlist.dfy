/** The operator allowlist: path and name entries, and the cached decision per process. */
module Allowlist {
  import opened Collections
  import opened Texts

  const CACHE_LIMIT := 4096

  // ---------------------------------------------------------------- entries

  datatype Kind = NameEntry | PathEntry | UnknownKind(text: string)

  datatype AllowEntry = AllowEntry(kind: Kind, value: string, note: string)

  predicate Separator(c: char) {
    c == '\\' || c == '/'
  }

  /** Strip trailing separators. */
  function StripEnd(s: string): string {
    if s != "" && Separator(Last(s)) then StripEnd(Front(s)) else s
  }

  /** The test as it is coded: a string prefix that ends at a separator or at the end of the path. */
  predicate Matches(e: AllowEntry, name: string, path: string) {
    match e.kind
    case NameEntry => name != "" && name == e.value
    case PathEntry =>
      var prefix := StripEnd(e.value);
      if path == "" || prefix == "" || !(prefix <= path) then false
      else
        var rest := path[|prefix|..];
        rest == "" || Separator(rest[0])
    case UnknownKind(_) => false
  }

  // ------------------------------------------------ what an operator types

  predicate LooksLikePath(v: string) {
    (exists c :: c in v && Separator(c)) || HasDrive(v)
  }

  predicate HasDrive(v: string) {
    2 <= |v| && v[1] == ':'
  }

  /** Where the last component of a path starts. */
  function LastStart(p: string): (start: nat)
    ensures start <= |p|
  {
    if p == "" || Separator(Last(p)) then |p| else LastStart(Front(p))
  }

  function AfterLastSeparator(p: string): string {
    p[LastStart(p)..]
  }

  /** The last component of a path, a drive letter aside. */
  function BaseName(p: string): string {
    AfterLastSeparator(if HasDrive(p) && !Separator(p[0]) then p[2..] else p)
  }

  /** The entry for what was typed: a path entry if the kind says so or, unless it says otherwise, the value looks like
      a path; else a name entry. An empty value is an error. */
  function Normalize(kind: string, value: string): Option<AllowEntry> {
    var v, k := Strip(value), Lower(Strip(kind));
    if v == "" then None
    else if k == "path" || (k != "name" && LooksLikePath(v)) then Some(AllowEntry(PathEntry, NormCase(v), ""))
    else Some(AllowEntry(NameEntry, Lower(BaseName(v)), ""))
  }

  /** How what was typed is read: without a value it is an error; a path entry when the kind is "path", or when it is
      not "name" and the value has a separator or a colon in second place; a name entry otherwise. */
  lemma ReadAs(kind: string, value: string)
    ensures var v, k := Strip(value), Lower(Strip(kind));
            var pathLike := '\\' in v || '/' in v || (2 <= |v| && v[1] == ':');
            && (Normalize(kind, value) == None <==> v == "")
            && (v != "" ==>
                  var e := Normalize(kind, value).value;
                  && e.note == ""
                  && (e.kind == PathEntry <==> k == "path" || (k != "name" && pathLike))
                  && (e.kind == NameEntry <==> k == "name" || (k != "path" && !pathLike))
                  && (e.kind == PathEntry ==> e.value == NormCase(v)))
  {
  }

  /** `name` is the end of `v` behind its last separator or its drive letter. */
  predicate EndsIn(v: string, name: string) {
    var start := |v| - |name|;
    && 0 <= start && name == v[start..]
    && (forall i :: start <= i < |v| ==> v[i] != '\\' && v[i] != '/')
    && (0 < start ==> v[start - 1] == '\\' || v[start - 1] == '/' || (v[start - 1] == ':' && start == 2))
    && (2 <= |v| && v[1] == ':' && v[0] != '\\' && v[0] != '/' ==> 2 <= start)
  }

  /** A name entry's value is that end of what was typed, in lower case. */
  lemma ReadAsName(kind: string, value: string)
    requires Normalize(kind, value).Some? && Normalize(kind, value).value.kind == NameEntry
    ensures exists name :: EndsIn(Strip(value), name) && Normalize(kind, value).value.value == Lower(name)
  {
    BaseNameExactly(Strip(value));
    assert EndsIn(Strip(value), BaseName(Strip(value)));
  }

  /** The kind as it is listed. */
  function KindText(kind: Kind): string {
    match kind
    case NameEntry => "name"
    case PathEntry => "path"
    case UnknownKind(text) => text
  }

  lemma {:induction false} LastStartShape(p: string)
    ensures forall i :: LastStart(p) <= i < |p| ==> !Separator(p[i])
    ensures (forall i :: 0 <= i < |p| ==> !Separator(p[i])) ==> LastStart(p) == 0
  {
    if p != "" && !Separator(Last(p)) {
      LastStartShape(Front(p));
    }
  }

  lemma AfterLastSeparatorShape(p: string)
    ensures var base := AfterLastSeparator(p);
            && |base| <= |p| && base == p[|p| - |base|..]
            && forall c :: c in base ==> !Separator(c)
  {
    LastStartShape(p);
  }

  lemma NoSeparatorNoChange(p: string)
    requires forall i :: 0 <= i < |p| ==> !Separator(p[i])
    ensures AfterLastSeparator(p) == p
  {
    LastStartShape(p);
  }

  lemma BaseNameShape(p: string)
    ensures var base := BaseName(p);
            && |base| <= |p| && base == p[|p| - |base|..]
            && (forall c :: c in base ==> !Separator(c))
            && (HasDrive(p) && !Separator(p[0]) ==> |base| < |p|)
  {
    AfterLastSeparatorShape(if HasDrive(p) && !Separator(p[0]) then p[2..] else p);
  }

  lemma BaseNameExactly(p: string)
    ensures EndsIn(p, BaseName(p))
  {
    var drive := HasDrive(p) && !Separator(p[0]);
    var rest := if drive then p[2..] else p;
    var start := if drive then 2 + LastStart(rest) else LastStart(rest);
    LastStartExactly(rest);
    assert BaseName(p) == rest[LastStart(rest)..] == p[start..];
    forall i | start <= i < |p|
      ensures !Separator(p[i])
    {
      assert p[i] == rest[if drive then i - 2 else i];
    }
    if drive && 0 < LastStart(rest) {
      assert p[start - 1] == rest[LastStart(rest) - 1];
    }
  }

  lemma {:induction false} LastStartExactly(p: string)
    ensures forall i :: LastStart(p) <= i < |p| ==> !Separator(p[i])
    ensures 0 < LastStart(p) ==> Separator(p[LastStart(p) - 1])
  {
    if p != "" && !Separator(Last(p)) {
      LastStartExactly(Front(p));
    }
  }

  /** What a name entry's value looks like: no separators, lower case, and no space at its end. */
  predicate NameValue(value: string) {
    && (forall c :: c in value ==> !Separator(c))
    && Lower(value) == value
    && (value != "" ==> !Space(Last(value)))
  }

  lemma LowerKeepsNames(s: string)
    requires forall c :: c in s ==> !Separator(c)
    requires s != "" ==> !Space(Last(s))
    ensures NameValue(Lower(s))
  {
    LowerTwice(s);
    forall c | c in Lower(s)
      ensures !Separator(c)
    {
      var i :| 0 <= i < |s| && Lower(s)[i] == c;
      assert s[i] in s;
    }
  }

  lemma NormalizedName(v: string)
    requires v != "" && Trimmed(v)
    ensures NameValue(Lower(BaseName(v)))
  {
    BaseNameShape(v);
    LowerKeepsNames(BaseName(v));
  }

  /** Typing in a name entry's value again gives it back exactly when it is neither empty nor starts with a space or
      what reads as a drive letter. */
  lemma NameRetypedIff(value: string)
    requires NameValue(value)
    ensures Normalize("name", value) == Some(AllowEntry(NameEntry, value, "")) <==>
            value != "" && !Space(value[0]) && !HasDrive(value)
  {
    assert Lower(Strip("name")) == "name" by { KindReads("name"); }
    StripTrims(value);
    var v := Strip(value);
    BaseNameShape(v);
    if value != "" && Space(value[0]) {
      LeadingSpaceGoes(value);
    } else {
      TrimmedStays(value);
      assert forall i :: 0 <= i < |value| ==> value[i] in value;
      NoSeparatorNoChange(value);
    }
  }

  lemma KindReads(text: string)
    requires text == "name" || text == "path"
    ensures Lower(Strip(text)) == text
  {
    TrimmedStays(text);
  }

  /** Every entry made from what was typed can be typed again as it is listed (to remove it, say), except name entries
      whose value is empty, or starts with a space or with what reads as a drive letter. */
  lemma RetypedAsListedIff(kind: string, value: string)
    requires Normalize(kind, value).Some?
    ensures var e := Normalize(kind, value).value;
            Normalize(KindText(e.kind), e.value) == Some(e) <==>
            e.kind.PathEntry? || (e.value != "" && !Space(e.value[0]) && !HasDrive(e.value))
  {
    var v, e := Strip(value), Normalize(kind, value).value;
    StripTrims(value);
    if e.kind.PathEntry? {
      KindReads("path");
      NormCaseKeepsTrim(v);
      TrimmedStays(NormCase(v));
      NormCaseTwice(v);
    } else {
      NormalizedName(v);
      NameRetypedIff(e.value);
    }
  }

  /** Such a name can come about: the part after the last separator is not stripped again. */
  lemma SpacedNameIsNotRetyped(value: string)
    requires value == "d\\ x"
    ensures Normalize("name", value) == Some(AllowEntry(NameEntry, " x", ""))
    ensures Normalize("name", " x") != Normalize("name", value)
  {
    KindReads("name");
    TrimmedStays(value);
    var front := Front(value);
    assert Last(value) == 'x' && Last(front) == ' ' && Last(Front(front)) == '\\';
    assert LastStart(value) == LastStart(front) == LastStart(Front(front)) == 2;
    assert Lower(" x") == " x";
    assert NameValue(" x");
    NameRetypedIff(" x");
  }

  // ---------------------------------------------- paths as component lists

  /** Prepend a character to the first component. */
  function Prepend(c: char, parts: seq<string>): seq<string>
    requires parts != []
  {
    [[c] + parts[0]] + parts[1..]
  }

  /** The components of a normalised path, in which only the backslash separates. */
  function Components(s: string): (parts: seq<string>)
    ensures parts != []
  {
    if s == "" then [""]
    else if s[0] == '\\' then [""] + Components(s[1..])
    else Prepend(s[0], Components(s[1..]))
  }

  predicate Normal(s: string) {
    forall c :: c in s ==> c != '/'
  }

  /** The prefix ends where a component of the path ends. */
  predicate EndsAtBoundary(prefix: string, path: string) {
    prefix <= path && (|prefix| == |path| || path[|prefix|] == '\\')
  }

  lemma PrependPrefix(c: char, a: seq<string>, b: seq<string>)
    requires a != [] && b != []
    ensures Prepend(c, a) <= Prepend(c, b) <==> a <= b
  {
    var a', b' := Prepend(c, a), Prepend(c, b);
    if a' <= b' {
      assert a'[0] == b'[0];
      assert a[0] == a'[0][1..] && b[0] == b'[0][1..];
      assert forall i :: 1 <= i < |a| ==> a[i] == a'[i] && b[i] == b'[i];
    }
  }

  /** A string prefix that stops at a component boundary is a prefix of the component list, and conversely. */
  lemma {:induction false} BoundaryIsComponentPrefix(prefix: string, path: string)
    ensures EndsAtBoundary(prefix, path) <==> Components(prefix) <= Components(path)
  {
    if prefix != "" && path != "" {
      var p, s := prefix[1..], path[1..];
      BoundaryIsComponentPrefix(p, s);
      assert prefix == [prefix[0]] + p && path == [path[0]] + s;
      assert EndsAtBoundary(prefix, path) <==> prefix[0] == path[0] && EndsAtBoundary(p, s);
      if prefix[0] == '\\' && path[0] == '\\' {
        assert Components(prefix)[1..] == Components(p) && Components(path)[1..] == Components(s);
      } else if prefix[0] != '\\' && path[0] != '\\' {
        if prefix[0] == path[0] {
          PrependPrefix(prefix[0], Components(p), Components(s));
        } else {
          assert Components(prefix)[0][0] == prefix[0] && Components(path)[0][0] == path[0];
        }
      } else {
        assert (Components(prefix)[0] == "") != (Components(path)[0] == "");
      }
    } else if prefix == "" {
      assert path != "" ==> (Components(path)[0] == "" <==> path[0] == '\\');
    } else {
      assert Components(path) == [""];
      assert prefix[0] != '\\' ==> Components(prefix)[0] != "";
    }
  }

  lemma NormalPrefix(prefix: string, path: string)
    requires Normal(path) && prefix <= path
    ensures Normal(prefix)
  {
    forall c | c in prefix
      ensures c != '/'
    {
      var i :| 0 <= i < |prefix| && prefix[i] == c;
      assert path[i] in path;
    }
  }

  lemma NormCaseIsNormal(path: string)
    ensures Normal(NormCase(path))
  {
    forall c | c in NormCase(path)
      ensures c != '/'
    {
      var i :| 0 <= i < |path| && NormCase(path)[i] == c;
      assert c == NormCaseChar(path[i]);
    }
  }

  /** A path entry matches a normalised image path exactly when the stripped entry is non-empty, has no forward
      slash left in it, and its components are a prefix of the path's. */
  lemma PathEntryMatchesComponents(e: AllowEntry, name: string, path: string)
    requires e.kind == PathEntry && Normal(path)
    ensures Matches(e, name, path) <==>
            var prefix := StripEnd(e.value);
            prefix != "" && Normal(prefix) && Components(prefix) <= Components(path)
  {
    var prefix := StripEnd(e.value);
    BoundaryIsComponentPrefix(prefix, path);
    if prefix <= path {
      NormalPrefix(prefix, path);
      if |prefix| < |path| {
        assert path[|prefix|] in path;
        assert path[|prefix|..][0] == path[|prefix|];
      }
    }
  }

  /** So a sibling whose name merely starts like the entry is never allowed by it. */
  lemma SiblingNeverMatches(e: AllowEntry, name: string, more: string)
    requires e.kind == PathEntry && more != "" && !Separator(more[0])
    ensures !Matches(e, name, StripEnd(e.value) + more)
  {
    var prefix := StripEnd(e.value);
    assert (prefix + more)[|prefix|..] == more;
  }

  predicate AnyMatch(entries: seq<AllowEntry>, name: string, path: string) {
    exists e :: e in entries && Matches(e, name, path)
  }

  /** The entry admits the image: by its name, or because the entry's components are a prefix of the path's. */
  predicate Admits(e: AllowEntry, name: string, exe: string) {
    match e.kind
    case NameEntry => name != "" && e.value == Lower(name)
    case PathEntry =>
      var prefix := StripEnd(e.value);
      prefix != "" && Normal(prefix) && Components(prefix) <= Components(NormCase(exe))
    case UnknownKind(_) => false
  }

  /** What the list decides about a name and path as the operating system reports them. */
  lemma AllowedIffAdmitted(entries: seq<AllowEntry>, name: string, exe: string)
    ensures AnyMatch(entries, Lower(name), NormCase(exe)) <==> exists e :: e in entries && Admits(e, name, exe)
  {
    NormCaseIsNormal(exe);
    forall e | e in entries
      ensures Matches(e, Lower(name), NormCase(exe)) <==> Admits(e, name, exe)
    {
      if e.kind.PathEntry? {
        PathEntryMatchesComponents(e, Lower(name), NormCase(exe));
      }
    }
  }

  // ------------------------------------------- what a reading comes down to

  /** What the operating system says of a live process: when it was created, and its name and image path, which are
      empty when they cannot be read. */
  datatype Process = Process(created: real, name: string, exe: string)

  lemma {:induction false} StripEndShape(s: string)
    ensures StripEnd(s) <= s
    ensures StripEnd(s) != "" ==> !Separator(Last(StripEnd(s)))
    ensures forall i :: |StripEnd(s)| <= i < |s| ==> Separator(s[i])
  {
    if s != "" && Separator(Last(s)) {
      StripEndShape(Front(s));
    }
  }

  lemma StripEndTwice(s: string)
    ensures StripEnd(StripEnd(s)) == StripEnd(s)
  {
    StripEndShape(s);
  }

  /** A prefix that does not end in a separator sees nothing of the separators at the end of a path. */
  lemma PrefixOfStripped(prefix: string, path: string)
    requires prefix != "" && !Separator(Last(prefix))
    ensures prefix <= path <==> prefix <= StripEnd(path)
  {
    StripEndShape(path);
    if prefix <= path {
      assert path[|prefix| - 1] == Last(prefix);
    }
  }

  lemma MatchesStripped(e: AllowEntry, name: string, path: string)
    ensures Matches(e, name, path) <==> Matches(e, name, StripEnd(path))
  {
    var prefix, stripped := StripEnd(e.value), StripEnd(path);
    StripEndShape(e.value);
    StripEndShape(path);
    if prefix != "" {
      PrefixOfStripped(prefix, path);
      if prefix < stripped {
        assert path[|prefix|] == stripped[|prefix|];
      }
    }
  }

  function EntryFor(path: string): AllowEntry {
    AllowEntry(PathEntry, StripEnd(path), "")
  }

  lemma EntryForMatches(path: string, name: string, other: string)
    requires StripEnd(path) != ""
    ensures Matches(EntryFor(path), name, path)
    ensures Matches(EntryFor(path), name, other) ==> StripEnd(path) <= StripEnd(other)
  {
    StripEndShape(path);
    StripEndTwice(path);
    PrefixOfStripped(StripEnd(path), other);
  }

  predicate SameReading(a: Process, b: Process) {
    Lower(a.name) == Lower(b.name) && StripEnd(NormCase(a.exe)) == StripEnd(NormCase(b.exe))
  }

  predicate Verdict(entries: seq<AllowEntry>, p: Process) {
    AnyMatch(entries, Lower(p.name), NormCase(p.exe))
  }

  lemma SameReadingSameVerdict(entries: seq<AllowEntry>, a: Process, b: Process)
    requires SameReading(a, b)
    ensures Verdict(entries, a) == Verdict(entries, b)
  {
    forall e | e in entries
      ensures Matches(e, Lower(a.name), NormCase(a.exe)) == Matches(e, Lower(b.name), NormCase(b.exe))
    {
      MatchesStripped(e, Lower(a.name), NormCase(a.exe));
      MatchesStripped(e, Lower(b.name), NormCase(b.exe));
    }
  }

  /** A single entry that decides differently about two different readings. */
  lemma Distinguish(a: Process, b: Process) returns (e: AllowEntry)
    requires !SameReading(a, b)
    ensures Verdict([e], a) != Verdict([e], b)
  {
    var pathA, pathB := NormCase(a.exe), NormCase(b.exe);
    if Lower(a.name) != Lower(b.name) {
      e := AllowEntry(NameEntry, if a.name != "" then Lower(a.name) else Lower(b.name), "");
      assert e in [e];
    } else {
      var first, second := EntryFor(pathA), EntryFor(pathB);
      if StripEnd(pathA) != "" {
        EntryForMatches(pathA, Lower(a.name), pathB);
      }
      if StripEnd(pathB) != "" {
        EntryForMatches(pathB, Lower(a.name), pathA);
      }
      e := if StripEnd(pathA) != "" && !Matches(first, Lower(a.name), pathB) then first else second;
      assert e in [e];
    }
  }

  /** Two readings get the same decision from every list exactly when they agree in name and path, but for letter case
      and separators at the end. */
  lemma SameVerdictsIff(a: Process, b: Process)
    ensures (forall entries :: Verdict(entries, a) == Verdict(entries, b)) <==> SameReading(a, b)
  {
    if SameReading(a, b) {
      forall entries
        ensures Verdict(entries, a) == Verdict(entries, b)
      {
        SameReadingSameVerdict(entries, a, b);
      }
    } else {
      var e := Distinguish(a, b);
    }
  }

  // ------------------------------------------------------- cached decisions

  /** The decision without a cache. A PID that cannot be looked up is not allowed. */
  predicate Uncached(entries: seq<AllowEntry>, pid: int, process: Option<Process>) {
    && 0 < pid && process.Some?
    && Verdict(entries, process.value)
  }

  type Cache = map<int, (real, bool)>

  datatype State = State(entries: seq<AllowEntry>, cache: Cache)

  /** A lookup: the answer and the state after it. */
  function Lookup(s: State, pid: int, process: Option<Process>): (State, bool) {
    if pid <= 0 || s.entries == [] || process.None? then (s, false)
    else if pid in s.cache && s.cache[pid].0 == process.value.created then (s, s.cache[pid].1)
    else
      var allowed := Verdict(s.entries, process.value);
      var cache := if CACHE_LIMIT <= |s.cache| then map[] else s.cache;
      (s.(cache := cache[pid := (process.value.created, allowed)]), allowed)
  }

  predicate SameTarget(a: AllowEntry, b: AllowEntry) {
    a.kind == b.kind && a.value == b.value
  }

  function Other(target: AllowEntry): AllowEntry -> bool {
    (e: AllowEntry) => !SameTarget(e, target)
  }

  datatype Event =
    | Add(entry: AllowEntry)
    | Remove(entry: AllowEntry)
    | Clear
    | Load(file: Option<seq<AllowEntry>>)  // what the file holds, if it can be read
    | Ask(pid: int, process: Option<Process>)

  function Step(s: State, e: Event): State {
    match e
    case Add(entry) =>
      if exists x :: x in s.entries && SameTarget(x, entry) then s else State(s.entries + [entry], map[])
    case Remove(entry) =>
      var kept := Filter(s.entries, Other(entry));
      if |kept| == |s.entries| then s.(entries := kept) else State(kept, map[])
    case Clear => State([], map[])
    case Load(file) => if file.None? then s else State(file.value, map[])
    case Ask(pid, process) => Lookup(s, pid, process).0
  }

  function Run(initial: seq<AllowEntry>, es: seq<Event>): State {
    if es == [] then State(initial, map[]) else Step(Run(initial, Front(es)), Last(es))
  }

  /** The process has kept its name and image: every lookup that found it, the same PID with the same creation time,
      read what is read now. A reused PID has another creation time, and other processes do not matter. */
  predicate KeptReading(es: seq<Event>, pid: int, process: Process) {
    forall i :: 0 <= i < |es| && SameProcess(es[i], Ask(pid, Some(process))) ==>
      SameReading(es[i].process.value, process)
  }

  predicate SameProcess(a: Event, b: Event) {
    && a.Ask? && b.Ask? && a.pid == b.pid && a.process.Some? && b.process.Some?
    && a.process.value.created == b.process.value.created
  }

  /** Every cached answer is the current uncached answer for the process it was computed from, which was looked up in
      this run. */
  ghost predicate CacheIsCurrent(es: seq<Event>, s: State) {
    forall pid :: pid in s.cache ==>
      exists i :: 0 <= i < |es| && CachedFrom(es[i], pid, s)
  }

  predicate CachedFrom(e: Event, pid: int, s: State)
    requires pid in s.cache
  {
    && e.Ask? && e.pid == pid && e.process.Some? && e.process.value.created == s.cache[pid].0
    && Uncached(s.entries, pid, e.process) == s.cache[pid].1
  }

  lemma LookupKeepsCacheCurrent(es: seq<Event>, s: State, pid: int, process: Option<Process>)
    requires CacheIsCurrent(es, s)
    ensures CacheIsCurrent(es + [Ask(pid, process)], Lookup(s, pid, process).0)
  {
    var es', s' := es + [Ask(pid, process)], Lookup(s, pid, process).0;
    forall q | q in s'.cache
      ensures exists i :: 0 <= i < |es'| && CachedFrom(es'[i], q, s')
    {
      if q in s.cache && s'.cache[q] == s.cache[q] {
        var i :| 0 <= i < |es| && CachedFrom(es[i], q, s);
        assert es'[i] == es[i];
        assert CachedFrom(es'[i], q, s');
      } else {
        assert CachedFrom(es'[|es|], q, s');
      }
    }
  }

  lemma RemoveNothing(entries: seq<AllowEntry>, target: AllowEntry)
    requires |Filter(entries, Other(target))| == |entries|
    ensures Filter(entries, Other(target)) == entries
  {
    FilterSameLength(entries, Other(target));
  }

  lemma {:induction false} FilterSameLength(entries: seq<AllowEntry>, keep: AllowEntry -> bool)
    requires |Filter(entries, keep)| == |entries|
    ensures Filter(entries, keep) == entries
  {
    if entries != [] {
      FilterMembers(Front(entries), keep);
      FilterSameLength(Front(entries), keep);
      assert entries == Front(entries) + [Last(entries)];
    }
  }

  lemma {:induction false} CacheStaysCurrent(initial: seq<AllowEntry>, es: seq<Event>)
    ensures CacheIsCurrent(es, Run(initial, es))
    ensures |Run(initial, es).cache| <= 4096
  {
    if es != [] {
      var front, s := Front(es), Run(initial, Front(es));
      CacheStaysCurrent(initial, front);
      assert es == front + [Last(es)];
      match Last(es)
      case Ask(pid, process) => LookupKeepsCacheCurrent(front, s, pid, process);
      case Add(entry) => CurrentLater(front, Last(es), s);
      case Remove(entry) =>
        CurrentLater(front, Last(es), s);
        if |Filter(s.entries, Other(entry))| == |s.entries| {
          RemoveNothing(s.entries, entry);
        }
      case Clear =>
      case Load(_) => CurrentLater(front, Last(es), s);
    }
  }

  lemma CurrentLater(es: seq<Event>, e: Event, s: State)
    requires CacheIsCurrent(es, s)
    ensures CacheIsCurrent(es + [e], s)
  {
    forall q | q in s.cache
      ensures exists i :: 0 <= i < |es + [e]| && CachedFrom((es + [e])[i], q, s)
    {
      var i :| 0 <= i < |es| && CachedFrom(es[i], q, s);
      assert (es + [e])[i] == es[i];
    }
  }

  /** In every sequence of additions, removals, clears, loads and lookups, with processes that exit and PIDs that are
      reused, a lookup through the cache answers what matching against the current entries answers. */
  lemma CacheIsTransparent(initial: seq<AllowEntry>, es: seq<Event>, pid: int, process: Option<Process>)
    requires process.Some? ==> KeptReading(es, pid, process.value)
    ensures Lookup(Run(initial, es), pid, process).1 == Uncached(Run(initial, es).entries, pid, process)
  {
    var s := Run(initial, es);
    CacheStaysCurrent(initial, es);
    if process.Some? && pid in s.cache && s.cache[pid].0 == process.value.created {
      var i :| 0 <= i < |es| && CachedFrom(es[i], pid, s);
      assert SameProcess(es[i], Ask(pid, process));
      SameReadingSameVerdict(s.entries, es[i].process.value, process.value);
    }
  }

  /** A process read as `a` is looked up again, now read as `b`, and the answer is the one matching gives. */
  predicate SecondLookupTrue(entries: seq<AllowEntry>, pid: int, a: Process, b: Process) {
    Lookup(Run(entries, [Ask(pid, Some(a))]), pid, Some(b)).1 == Uncached(entries, pid, Some(b))
  }

  lemma SecondLookup(entries: seq<AllowEntry>, pid: int, a: Process, b: Process)
    requires 0 < pid && a.created == b.created
    ensures Lookup(Run(entries, [Ask(pid, Some(a))]), pid, Some(b)).1 == Verdict(entries, a)
    ensures SecondLookupTrue(entries, pid, a, b) <==> Verdict(entries, a) == Verdict(entries, b)
  {
    assert Front([Ask(pid, Some(a))]) == [];
  }

  /** Exactly when the condition can be dropped: a second lookup of one process answers what matching would, whatever
      the list, if and only if both lookups read the same. */
  lemma SecondLookupTransparentIff(pid: int, a: Process, b: Process)
    requires 0 < pid && a.created == b.created
    ensures (forall entries :: SecondLookupTrue(entries, pid, a, b)) <==> SameReading(a, b)
  {
    forall entries
      ensures SecondLookupTrue(entries, pid, a, b) <==> Verdict(entries, a) == Verdict(entries, b)
    {
      SecondLookup(entries, pid, a, b);
    }
    SameVerdictsIff(a, b);
  }

  /** It fails for an image that cannot be read at the first lookup: it stays refused after it has become readable. */
  lemma UnreadableImageStaysRefused(pid: int, created: real, name: string, exe: string)
    requires 0 < pid && StripEnd(NormCase(exe)) != ""
    ensures var e, unread := EntryFor(NormCase(exe)), Process(created, name, "");
            var s := Run([e], [Ask(pid, Some(unread))]);
            && !Lookup(s, pid, Some(Process(created, name, exe))).1
            && Uncached([e], pid, Some(Process(created, name, exe)))
  {
    var e := EntryFor(NormCase(exe));
    SecondLookup([e], pid, Process(created, name, ""), Process(created, name, exe));
    assert !Matches(e, Lower(name), NormCase(""));
    EntryForMatches(NormCase(exe), Lower(name), "");
    assert e in [e];
  }

  // ------------------------------------------------------------ the list file

  /** What an event hands to the writer of the list's file. */
  function Saved(s: State, e: Event): Option<seq<AllowEntry>> {
    match e
    case Add(entry) => if exists x :: x in s.entries && SameTarget(x, entry) then None else Some(s.entries + [entry])
    case Remove(entry) =>
      var kept := Filter(s.entries, Other(entry));
      if |kept| == |s.entries| then None else Some(kept)
    case Clear => Some([])
    case Load(_) => None
    case Ask(_, _) => None
  }

  /** What was last written to the file, or else loaded from it. */
  function LastSaved(initial: seq<AllowEntry>, es: seq<Event>): seq<AllowEntry> {
    if es == [] then initial
    else
      var saved := Saved(Run(initial, Front(es)), Last(es));
      if saved.Some? then saved.value
      else if Last(es).Load? && Last(es).file.Some? then Last(es).file.value
      else LastSaved(initial, Front(es))
  }

  /** No change is kept from the file: in every run the entries are those last handed to its writer or loaded since. */
  lemma {:induction false} FileHoldsTheEntries(initial: seq<AllowEntry>, es: seq<Event>)
    ensures LastSaved(initial, es) == Run(initial, es).entries
  {
    if es != [] {
      var s := Run(initial, Front(es));
      FileHoldsTheEntries(initial, Front(es));
      if Last(es).Remove? && |Filter(s.entries, Other(Last(es).entry))| == |s.entries| {
        RemoveNothing(s.entries, Last(es).entry);
      }
    }
  }

  /** Removing what was just added under the same text undoes the addition, unless it was listed before. */
  lemma RemoveUndoesAdd(s: State, entry: AllowEntry, target: AllowEntry)
    requires SameTarget(entry, target) && forall x :: x in s.entries ==> !SameTarget(x, entry)
    ensures Step(Step(s, Add(entry)), Remove(target)).entries == s.entries
  {
    FilterSnoc(s.entries, entry, Other(target));
    FilterAll(s.entries, Other(target));
  }

  // ------------------------------------------------------------ in place

  class OperatorAllowlist {
    var entries: seq<AllowEntry>
    var cache: Cache

    ghost function View(): State
      reads this
    {
      State(entries, cache)
    }

    constructor (loaded: seq<AllowEntry>)
      ensures View() == State(loaded, map[])
    {
      entries, cache := loaded, map[];
    }

    /** Replace all entries by those of the file; a file that cannot be read changes nothing. */
    method LoadEntries(file: Option<seq<AllowEntry>>)
      modifies this
      ensures View() == Step(old(View()), Load(file))
    {
      if file.None? {
        return;
      }
      entries := file.value;
      cache := map[];
    }

    /** Add what was typed unless an entry with the same kind and value is there. Return the one in the list, or
        nothing when the value was empty, and what to write to the file. */
    method AddEntry(kind: string, value: string, note: string)
      returns (listed: Option<AllowEntry>, saved: Option<seq<AllowEntry>>)
      modifies this
      ensures var entry := Normalize(kind, value);
              if entry.None? then View() == old(View()) && listed == None && saved == None
              else
                var e := Add(entry.value.(note := Strip(note)));
                && View() == Step(old(View()), e) && saved == Saved(old(View()), e)
                && listed.Some? && listed.value in entries && SameTarget(listed.value, entry.value)
    {
      var normalized := Normalize(kind, value);
      if normalized.None? {
        return None, None;
      }
      var entry := normalized.value.(note := Strip(note));
      for i := 0 to |entries|
        invariant View() == old(View())
        invariant forall j :: 0 <= j < i ==> !SameTarget(entries[j], entry)
      {
        if SameTarget(entries[i], entry) {
          return Some(entries[i]), None;
        }
      }
      entries := entries + [entry];
      cache := map[];
      return Some(entry), Some(entries);
    }

    /** Remove what was typed; nothing happens when the value was empty. */
    method RemoveEntry(kind: string, value: string) returns (removed: bool, saved: Option<seq<AllowEntry>>)
      modifies this
      ensures var target := Normalize(kind, value);
              if target.None? then View() == old(View()) && !removed && saved == None
              else
                && View() == Step(old(View()), Remove(target.value))
                && saved == Saved(old(View()), Remove(target.value))
                && (removed <==> exists x :: x in old(entries) && SameTarget(x, target.value))
                && forall x :: x in entries <==> x in old(entries) && !SameTarget(x, target.value)
    {
      var target := Normalize(kind, value);
      if target.None? {
        return false, None;
      }
      removed, saved := RemoveTarget(target.value);
    }

    method RemoveTarget(target: AllowEntry) returns (removed: bool, saved: Option<seq<AllowEntry>>)
      modifies this
      ensures View() == Step(old(View()), Remove(target)) && saved == Saved(old(View()), Remove(target))
      ensures removed <==> exists x :: x in old(entries) && SameTarget(x, target)
      ensures forall x :: x in entries <==> x in old(entries) && !SameTarget(x, target)
    {
      var before := |entries|;
      FilterMembers(entries, Other(target));
      FilterAll(entries, Other(target));
      var kept := KeepOthers(target);
      if |kept| == before {
        RemoveNothing(entries, target);
      }
      entries := kept;
      removed, saved := |entries| != before, None;
      if removed {
        cache := map[];
        saved := Some(entries);
      }
    }

    method KeepOthers(target: AllowEntry) returns (kept: seq<AllowEntry>)
      ensures kept == Filter(entries, Other(target))
    {
      kept := [];
      for i := 0 to |entries|
        invariant kept == Filter(entries[..i], Other(target))
      {
        assert Front(entries[..i + 1]) == entries[..i];
        if !SameTarget(entries[i], target) {
          kept := kept + [entries[i]];
        }
      }
      assert entries[..|entries|] == entries;
    }

    method ClearAll() returns (saved: seq<AllowEntry>)
      modifies this
      ensures View() == Step(old(View()), Clear) && Some(saved) == Saved(old(View()), Clear)
    {
      entries := [];
      cache := map[];
      saved := entries;
    }

    method AnyEntryMatches(name: string, exe: string) returns (found: bool)
      ensures found == AnyMatch(entries, Lower(name), NormCase(exe))
    {
      var nameLower, pathLower := Lower(name), if exe != "" then NormCase(exe) else "";
      for i := 0 to |entries|
        invariant forall j :: 0 <= j < i ==> !Matches(entries[j], nameLower, pathLower)
      {
        if Matches(entries[i], nameLower, pathLower) {
          return true;
        }
      }
      return false;
    }

    method PidAllowed(pid: int, process: Option<Process>) returns (allowed: bool)
      modifies this`cache
      ensures (View(), allowed) == Lookup(old(View()), pid, process)
    {
      if pid <= 0 || entries == [] || process.None? {
        return false;
      }
      var created := process.value.created;
      if pid in cache && cache[pid].0 == created {
        return cache[pid].1;
      }
      allowed := AnyEntryMatches(process.value.name, process.value.exe);
      if |cache| >= CACHE_LIMIT {
        cache := map[];
      }
      cache := cache[pid := (created, allowed)];
    }
  }
}
