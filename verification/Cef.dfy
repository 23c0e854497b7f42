/** The CEF record printer and a parser that inverts it.
    The escaping rules are those of the ArcSight Common Event Format (CEF) Implementation Standard, section
    "Character Encoding". */
module Cef {
  import opened Collections
  import opened Texts

  // ---------------------------------------------------------------- escaping

  /** Substitute every occurrence of one character. */
  function Replace(s: string, c: char, with: string): string {
    if s == "" then "" else (if s[0] == c then with else [s[0]]) + Replace(s[1..], c, with)
  }

  /** Extension values: backslash, then equals sign, then line breaks. */
  function CefEscape(value: string): string {
    Replace(Replace(Replace(Replace(value, '\\', "\\\\"), '=', "\\="), '\n', " "), '\r', " ")
  }

  /** Header fields: backslash, then bar, then line breaks. */
  function CefHeaderEscape(value: string): string {
    Replace(Replace(Replace(Replace(value, '\\', "\\\\"), '|', "\\|"), '\r', " "), '\n', " ")
  }

  predicate LineBreak(c: char) {
    c == '\n' || c == '\r'
  }

  /** Reference: escape each character on its own, once. */
  function EscapeChar(special: char, c: char): string {
    if c == '\\' || c == special then ['\\', c]
    else if LineBreak(c) then " "
    else [c]
  }

  function Escape(special: char, s: string): string {
    if s == "" then "" else EscapeChar(special, s[0]) + Escape(special, s[1..])
  }

  lemma Associate<T>(a: seq<T>, b: seq<T>, c: seq<T>)
    ensures (a + b) + c == a + (b + c)
  {
  }

  lemma {:induction false} ReplaceConcat(a: string, b: string, c: char, with: string)
    ensures Replace(a + b, c, with) == Replace(a, c, with) + Replace(b, c, with)
  {
    if a == "" {
      assert a + b == b;
    } else {
      ReplaceConcat(a[1..], b, c, with);
      assert (a + b)[0] == a[0] && (a + b)[1..] == a[1..] + b;
      Associate(if a[0] == c then with else [a[0]], Replace(a[1..], c, with), Replace(b, c, with));
    }
  }

  lemma ReplaceOne(x: char, c: char, with: string)
    ensures Replace([x], c, with) == if x == c then with else [x]
  {
    assert [x][1..] == "";
  }

  lemma ReplaceTwo(x: char, y: char, c: char, with: string)
    ensures Replace([x, y], c, with) == (if x == c then with else [x]) + (if y == c then with else [y])
  {
    assert [x, y] == [x] + [y];
    ReplaceConcat([x], [y], c, with);
    ReplaceOne(x, c, with);
    ReplaceOne(y, c, with);
  }

  /** The first two substitutions, in this order, do not disturb each other. */
  lemma {:induction false} SequentialEscape(s: string, special: char, b1: char, b2: char)
    requires special != '\\' && !LineBreak(special)
    requires (b1 == '\n' && b2 == '\r') || (b1 == '\r' && b2 == '\n')
    ensures Replace(Replace(Replace(Replace(s, '\\', "\\\\"), special, ['\\', special]), b1, " "), b2, " ") ==
            Escape(special, s)
  {
    if s != "" {
      var x, rest := s[0], s[1..];
      SequentialEscape(rest, special, b1, b2);
      var r1 := Replace(rest, '\\', "\\\\");
      var r2 := Replace(r1, special, ['\\', special]);
      var r3 := Replace(r2, b1, " ");
      var h1 := if x == '\\' then "\\\\" else [x];
      ReplaceConcat(h1, r1, special, ['\\', special]);
      var h2 := Replace(h1, special, ['\\', special]);
      ReplaceConcat(h2, r2, b1, " ");
      var h3 := Replace(h2, b1, " ");
      ReplaceConcat(h3, r3, b2, " ");
      EscapeHead(x, special, b1, b2);
    }
  }

  lemma EscapeHead(x: char, special: char, b1: char, b2: char)
    requires special != '\\' && !LineBreak(special)
    requires (b1 == '\n' && b2 == '\r') || (b1 == '\r' && b2 == '\n')
    ensures var h1 := if x == '\\' then "\\\\" else [x];
            Replace(Replace(Replace(h1, special, ['\\', special]), b1, " "), b2, " ") == EscapeChar(special, x)
  {
    if x == '\\' || x == special {
      ReplaceTwo('\\', '\\', special, ['\\', special]);
      ReplaceOne(x, special, ['\\', special]);
      ReplaceTwo('\\', x, b1, " ");
      ReplaceTwo('\\', x, b2, " ");
    } else {
      ReplaceOne(x, special, ['\\', special]);
      ReplaceOne(x, b1, " ");
      ReplaceOne(x, b2, " ");
      ReplaceOne(' ', b2, " ");
    }
  }

  /** The printer's chains of substitutions are one-pass escapes. */
  lemma EscapesAreOnePass(value: string)
    ensures CefEscape(value) == Escape('=', value)
    ensures CefHeaderEscape(value) == Escape('|', value)
  {
    SequentialEscape(value, '=', '\n', '\r');
    SequentialEscape(value, '|', '\r', '\n');
  }

  // ----------------------------------------------------------------- printer

  datatype Event = Event(
    name: Option<string>,
    message: Option<string>,
    detector: Option<string>,
    weight: Option<int>,
    timestamp: Option<real>,
    pid: Option<string>,
    process: Option<string>,
    path: Option<string>)

  datatype Pair = Pair(key: string, value: string)

  function GetOr<T>(o: Option<T>, default: T): T {
    if o.Some? then o.value else default
  }

  /** Conversion to an integer drops the fraction, toward zero. */
  function Truncate(x: real): int {
    if x < 0.0 then -((-x).Floor) else x.Floor
  }

  function MillisOf(e: Event, now: real): int {
    Truncate(GetOr(e.timestamp, now) * 1000.0)
  }

  function SeverityText(level: string): string {
    if level == "INFO" then "1"
    else if level == "LOW" then "3"
    else if level == "MEDIUM" then "5"
    else if level == "HIGH" then "8"
    else if level == "CRITICAL" then "10"
    else "5"
  }

  /** The seven header fields, before escaping. */
  function HeaderOf(e: Event, level: string): seq<string> {
    var name := GetOr(e.name, "signal");
    ["CEF:0", "RansomGuard", "EDR", "1.2", name, GetOr(e.message, name), SeverityText(level)]
  }

  function Optional(key: string, value: Option<string>): seq<Pair> {
    if value.Some? && value.value != "" then [Pair(key, value.value)] else []
  }

  /** The texts that every record carries in its extension. */
  datatype Values = Values(
    millis: string,
    detector: string,
    technique: string,
    level: string,
    weight: string,
    score: string,
    host: string)

  function ValuesOf(e: Event, technique: string, score: int, level: string, host: string, now: real): Values {
    Values(Decimal(MillisOf(e, now)), GetOr(e.detector, ""), technique, level, Decimal(GetOr(e.weight, 0)),
           Decimal(score), host)
  }

  /** The pairs every record has. */
  function FixedPairs(v: Values): seq<Pair> {
    [ Pair("rt", v.millis),
      Pair("cs1Label", "detector"), Pair("cs1", v.detector),
      Pair("cs2Label", "mitreTechnique"), Pair("cs2", v.technique),
      Pair("cs3Label", "threatLevel"), Pair("cs3", v.level),
      Pair("cn1Label", "weight"), Pair("cn1", v.weight),
      Pair("cn2Label", "totalScore"), Pair("cn2", v.score),
      Pair("dvchost", v.host) ]
  }

  /** The extension pairs, before escaping. `technique` is what the attack map gives for the signal, `now` the clock
      for an event without a timestamp. */
  function PairsOf(e: Event, technique: string, score: int, level: string, host: string, now: real): (r: seq<Pair>)
    ensures r != []
  {
    FixedPairs(ValuesOf(e, technique, score, level, host, now))
    + Optional("dpid", e.pid) + Optional("dproc", e.process) + Optional("fname", e.path)
  }

  function Join(sep: string, parts: seq<string>): string {
    if parts == [] then ""
    else if |parts| == 1 then parts[0]
    else parts[0] + sep + Join(sep, parts[1..])
  }

  function PairTexts(pairs: seq<Pair>): seq<string> {
    if pairs == [] then [] else [pairs[0].key + "=" + CefEscape(pairs[0].value)] + PairTexts(pairs[1..])
  }

  function BuildCef(e: Event, technique: string, score: int, level: string, host: string, now: real): string {
    var name := GetOr(e.name, "signal");
    var header := Join("|", [
      "CEF:0",
      "RansomGuard", "EDR", "1.2",
      CefHeaderEscape(name),
      CefHeaderEscape(GetOr(e.message, name)),
      SeverityText(level)
    ]);
    header + "|" + Join(" ", PairTexts(PairsOf(e, technique, score, level, host, now)))
  }

  // ------------------------------------------------------------------ parser

  /** A character of the record, plain or escaped by a backslash. */
  datatype Token = Raw(c: char) | Escaped(c: char)

  function Lex(s: string): seq<Token> {
    if s == "" then []
    else if s[0] == '\\' && 2 <= |s| then [Escaped(s[1])] + Lex(s[2..])
    else [Raw(s[0])] + Lex(s[1..])
  }

  function Text(ts: seq<Token>): string {
    if ts == [] then "" else [ts[0].c] + Text(ts[1..])
  }

  /** The first position of a token, or the length. */
  function IndexOf(ts: seq<Token>, t: Token): (i: nat)
    ensures i <= |ts|
  {
    if ts == [] || ts[0] == t then 0 else 1 + IndexOf(ts[1..], t)
  }

  /** One past the last position of a token, or 0. */
  function AfterLast(ts: seq<Token>, t: Token): (i: nat)
    ensures i <= |ts|
  {
    if ts == [] then 0 else if Last(ts) == t then |ts| else AfterLast(Front(ts), t)
  }

  datatype Parsed = Parsed(header: seq<string>, rest: seq<Token>)

  /** Cut off n fields, each ended by an unescaped bar. */
  function ParseHeader(ts: seq<Token>, n: nat): Option<Parsed> {
    if n == 0 then Some(Parsed([], ts))
    else
      var i := IndexOf(ts, Raw('|'));
      if i == |ts| then None
      else
        var tail := ParseHeader(ts[i + 1..], n - 1);
        if tail.None? then None
        else Some(Parsed([Text(ts[..i])] + tail.value.header, tail.value.rest))
  }

  /** Cut at unescaped equals signs; the key before one starts after the last space before it. */
  function ParseExtension(ts: seq<Token>): Option<seq<Pair>>
    decreases |ts|
  {
    var i := IndexOf(ts, Raw('='));
    if i == |ts| then None
    else
      var key, rest := Text(ts[..i]), ts[i + 1..];
      var j := IndexOf(rest, Raw('='));
      if j == |rest| then Some([Pair(key, Text(rest))])
      else
        var p := AfterLast(rest[..j], Raw(' '));
        if p == 0 then None
        else
          var tail := ParseExtension(rest[p..]);
          if tail.None? then None else Some([Pair(key, Text(rest[..p - 1]))] + tail.value)
  }

  datatype Record = Record(header: seq<string>, extension: seq<Pair>)

  function Parse(s: string): Option<Record> {
    var header := ParseHeader(Lex(s), 7);
    if header.None? then None
    else
      var extension := ParseExtension(header.value.rest);
      if extension.None? then None else Some(Record(header.value.header, extension.value))
  }

  // -------------------------------------------------- what a reader recovers

  /** A text with its line breaks turned into spaces. */
  function Flat(s: string): string {
    if s == "" then "" else [if LineBreak(s[0]) then ' ' else s[0]] + Flat(s[1..])
  }

  function FlatAll(ss: seq<string>): seq<string> {
    if ss == [] then [] else [Flat(ss[0])] + FlatAll(ss[1..])
  }

  function FlatPairs(ps: seq<Pair>): seq<Pair> {
    if ps == [] then [] else [Pair(ps[0].key, Flat(ps[0].value))] + FlatPairs(ps[1..])
  }

  function TokenOf(special: char, c: char): Token {
    if c == '\\' || c == special then Escaped(c) else Raw(if LineBreak(c) then ' ' else c)
  }

  /** The tokens a value is read back as. */
  function Tokens(special: char, s: string): seq<Token> {
    if s == "" then [] else [TokenOf(special, s[0])] + Tokens(special, s[1..])
  }

  lemma LexHead(special: char, c: char, tail: string)
    requires special != '\\'
    ensures Lex(EscapeChar(special, c) + tail) == [TokenOf(special, c)] + Lex(tail)
  {
    var head := EscapeChar(special, c);
    assert (head + tail)[|head|..] == tail;
  }

  lemma {:induction false} LexEscaped(special: char, s: string, rest: string)
    requires special != '\\'
    ensures Lex(Escape(special, s) + rest) == Tokens(special, s) + Lex(rest)
  {
    if s == "" {
      assert "" + rest == rest;
    } else {
      var tail := Escape(special, s[1..]) + rest;
      LexEscaped(special, s[1..], rest);
      LexHead(special, s[0], tail);
      Associate(EscapeChar(special, s[0]), Escape(special, s[1..]), rest);
      Associate([TokenOf(special, s[0])], Tokens(special, s[1..]), Lex(rest));
    }
  }

  /** A field, the separator after it, and what follows. */
  lemma LexPiece(special: char, s: string, sep: char, tail: string)
    requires special != '\\' && sep != '\\'
    ensures Lex(Escape(special, s) + ([sep] + tail)) == Tokens(special, s) + ([Raw(sep)] + Lex(tail))
  {
    LexEscaped(special, s, [sep] + tail);
    assert ([sep] + tail)[1..] == tail;
  }

  lemma {:induction false} TokensText(special: char, s: string)
    requires special != ' ' && !LineBreak(special)
    ensures |Tokens(special, s)| == |s| && Text(Tokens(special, s)) == Flat(s)
    ensures Raw(special) !in Tokens(special, s)
  {
    if s != "" {
      TokensText(special, s[1..]);
      assert Tokens(special, s)[1..] == Tokens(special, s[1..]);
    }
  }

  lemma {:induction false} IndexAfter(a: seq<Token>, t: Token, b: seq<Token>)
    requires t !in a
    ensures IndexOf(a + [t] + b, t) == |a|
  {
    if a == [] {
      assert a + [t] + b == [t] + b;
    } else {
      IndexAfter(a[1..], t, b);
      assert (a + [t] + b)[1..] == a[1..] + [t] + b;
    }
  }

  lemma {:induction false} IndexAbsent(a: seq<Token>, t: Token)
    requires t !in a
    ensures IndexOf(a, t) == |a|
  {
    if a != [] {
      IndexAbsent(a[1..], t);
    }
  }

  lemma CutAt(a: seq<Token>, t: Token, b: seq<Token>)
    requires t !in a
    ensures var ts := a + ([t] + b);
            IndexOf(ts, t) == |a| < |ts| && ts[..|a|] == a && ts[|a| + 1..] == b
  {
    assert a + ([t] + b) == a + [t] + b;
    IndexAfter(a, t, b);
  }

  lemma {:induction false} LastBefore(a: seq<Token>, t: Token, b: seq<Token>)
    requires t !in b
    ensures AfterLast(a + [t] + b, t) == |a| + 1
  {
    if b == [] {
      assert a + [t] + b == a + [t];
    } else {
      LastBefore(a, t, Front(b));
      assert Front(a + [t] + b) == a + [t] + Front(b);
    }
  }

  // -------------------------------------------------------------- the header

  /** Each field escaped and followed by a bar. */
  function HeaderText(fields: seq<string>): string {
    if fields == [] then "" else Escape('|', fields[0]) + (['|'] + HeaderText(fields[1..]))
  }

  function HeaderTokens(fields: seq<string>): seq<Token> {
    if fields == [] then [] else Tokens('|', fields[0]) + ([Raw('|')] + HeaderTokens(fields[1..]))
  }

  lemma Regroup<T>(a: seq<T>, b: seq<T>, c: seq<T>, d: seq<T>)
    ensures (a + (b + c)) + d == a + (b + (c + d))
  {
  }

  lemma {:induction false} LexHeader(fields: seq<string>, rest: string)
    ensures Lex(HeaderText(fields) + rest) == HeaderTokens(fields) + Lex(rest)
  {
    if fields == [] {
      assert "" + rest == rest;
    } else {
      var tail := HeaderText(fields[1..]) + rest;
      LexHeader(fields[1..], rest);
      LexPiece('|', fields[0], '|', tail);
      Regroup(Escape('|', fields[0]), ['|'], HeaderText(fields[1..]), rest);
      Regroup(Tokens('|', fields[0]), [Raw('|')], HeaderTokens(fields[1..]), Lex(rest));
    }
  }

  /** What the parser makes of one field, a bar and the rest. */
  lemma HeaderStep(field: seq<Token>, rest: seq<Token>, n: nat)
    requires Raw('|') !in field
    ensures ParseHeader(field + ([Raw('|')] + rest), n + 1) ==
            var tail := ParseHeader(rest, n);
            if tail.None? then None
            else Some(Parsed([Text(field)] + tail.value.header, tail.value.rest))
  {
    CutAt(field, Raw('|'), rest);
  }

  lemma {:induction false} HeaderIsRecovered(fields: seq<string>, rest: seq<Token>)
    ensures ParseHeader(HeaderTokens(fields) + rest, |fields|) == Some(Parsed(FlatAll(fields), rest))
  {
    if fields == [] {
      assert [] + rest == rest;
    } else {
      var first, tail := Tokens('|', fields[0]), HeaderTokens(fields[1..]) + rest;
      Regroup(first, [Raw('|')], HeaderTokens(fields[1..]), rest);
      TokensText('|', fields[0]);
      HeaderStep(first, tail, |fields| - 1);
      HeaderIsRecovered(fields[1..], rest);
    }
  }

  // ----------------------------------------------------------- the extension

  predicate CleanChar(c: char) {
    c != '\\' && c != '|' && c != '=' && c != ' ' && !LineBreak(c)
  }

  /** A text without separators, escapes or line breaks, as every key is. */
  predicate Clean(s: string) {
    forall c :: c in s ==> CleanChar(c)
  }

  lemma {:induction false} CleanIsUnchanged(special: char, s: string)
    requires Clean(s) && special in {'|', '='}
    ensures Escape(special, s) == s && Flat(s) == s
    ensures Raw(' ') !in Tokens(special, s)
  {
    if s != "" {
      assert s[0] in s;
      CleanIsUnchanged(special, s[1..]);
      assert s == [s[0]] + s[1..];
    }
  }

  function ExtensionText(pairs: seq<Pair>): string
    requires pairs != []
    decreases |pairs|, 1
  {
    Escape('=', pairs[0].key) + (['='] + ValueText(pairs))
  }

  /** From the first value on. */
  function ValueText(pairs: seq<Pair>): string
    requires pairs != []
    decreases |pairs|, 0
  {
    Escape('=', pairs[0].value) + if |pairs| == 1 then "" else [' '] + ExtensionText(pairs[1..])
  }

  function ExtensionTokens(pairs: seq<Pair>): seq<Token>
    requires pairs != []
    decreases |pairs|, 1
  {
    Tokens('=', pairs[0].key) + ([Raw('=')] + ValueTokens(pairs))
  }

  function ValueTokens(pairs: seq<Pair>): seq<Token>
    requires pairs != []
    decreases |pairs|, 0
  {
    Tokens('=', pairs[0].value) + if |pairs| == 1 then [] else [Raw(' ')] + ExtensionTokens(pairs[1..])
  }

  lemma {:induction false} LexExtension(pairs: seq<Pair>)
    requires pairs != []
    ensures Lex(ExtensionText(pairs)) == ExtensionTokens(pairs)
  {
    if |pairs| == 1 {
      LexEscaped('=', pairs[0].value, "");
    } else {
      LexExtension(pairs[1..]);
      LexPiece('=', pairs[0].value, ' ', ExtensionText(pairs[1..]));
    }
    LexPiece('=', pairs[0].key, '=', ValueText(pairs));
  }

  predicate CleanKeys(pairs: seq<Pair>) {
    forall p :: p in pairs ==> Clean(p.key)
  }

  lemma KeyTokens(pairs: seq<Pair>)
    requires pairs != [] && CleanKeys(pairs)
    ensures var key := Tokens('=', pairs[0].key);
            Raw('=') !in key && Raw(' ') !in key && Text(key) == pairs[0].key
  {
    assert pairs[0] in pairs;
    TokensText('=', pairs[0].key);
    CleanIsUnchanged('=', pairs[0].key);
  }

  /** The last space before the next equals sign is where the value ends and the next key begins. */
  lemma NextKey(value: seq<Token>, key: seq<Token>, tail: seq<Token>)
    requires Raw('=') !in value && Raw('=') !in key && Raw(' ') !in key
    ensures var rest := value + ([Raw(' ')] + (key + ([Raw('=')] + tail)));
            var j := IndexOf(rest, Raw('='));
            && j < |rest| && AfterLast(rest[..j], Raw(' ')) == |value| + 1
            && rest[..|value|] == value && rest[|value| + 1..] == key + ([Raw('=')] + tail)
  {
    var rest := value + ([Raw(' ')] + (key + ([Raw('=')] + tail)));
    var before := value + [Raw(' ')] + key;
    assert rest == before + ([Raw('=')] + tail);
    CutAt(before, Raw('='), tail);
    LastBefore(value, Raw(' '), key);
  }

  /** What the parser makes of a key, an equals sign and the rest. */
  lemma ParseStep(key: seq<Token>, rest: seq<Token>)
    requires Raw('=') !in key
    ensures var j := IndexOf(rest, Raw('='));
            var p := AfterLast(rest[..j], Raw(' '));
            ParseExtension(key + ([Raw('=')] + rest)) ==
            if j == |rest| then Some([Pair(Text(key), Text(rest))])
            else if p == 0 || ParseExtension(rest[p..]).None? then None
            else Some([Pair(Text(key), Text(rest[..p - 1]))] + ParseExtension(rest[p..]).value)
  {
    CutAt(key, Raw('='), rest);
  }

  lemma {:induction false} ExtensionIsRecovered(pairs: seq<Pair>)
    requires pairs != [] && CleanKeys(pairs)
    ensures ParseExtension(ExtensionTokens(pairs)) == Some(FlatPairs(pairs))
  {
    var value := Tokens('=', pairs[0].value);
    KeyTokens(pairs);
    TokensText('=', pairs[0].value);
    ParseStep(Tokens('=', pairs[0].key), ValueTokens(pairs));
    if |pairs| == 1 {
      assert ValueTokens(pairs) == value;
      IndexAbsent(value, Raw('='));
      assert FlatPairs(pairs) == [Pair(pairs[0].key, Flat(pairs[0].value))];
    } else {
      KeyTokens(pairs[1..]);
      NextKey(value, Tokens('=', pairs[1].key), ValueTokens(pairs[1..]));
      ExtensionIsRecovered(pairs[1..]);
    }
  }

  // --------------------------------------------------------------- the whole

  lemma JoinTwo(sep: string, first: string, more: seq<string>)
    requires more != []
    ensures Join(sep, [first] + more) == first + sep + Join(sep, more)
  {
    assert ([first] + more)[1..] == more;
  }

  lemma JoinedAgain(first: string, more: string)
    ensures (first + "|" + more) + "|" == first + (['|'] + (more + "|"))
    ensures first + "|" == first + (['|'] + "")
  {
  }

  lemma {:induction false} JoinedFields(fields: seq<string>, texts: seq<string>)
    requires fields != [] && |texts| == |fields|
    requires forall i :: 0 <= i < |fields| ==> texts[i] == Escape('|', fields[i])
    ensures Join("|", texts) + "|" == HeaderText(fields)
  {
    if 1 < |fields| {
      JoinedFields(fields[1..], texts[1..]);
      assert texts == [texts[0]] + texts[1..];
      JoinTwo("|", texts[0], texts[1..]);
      JoinedAgain(texts[0], Join("|", texts[1..]));
    } else {
      JoinedAgain(texts[0], "");
    }
  }

  lemma PairShape(key: string, value: string, more: string)
    ensures (key + "=" + value) + " " + more == key + (['='] + (value + ([' '] + more)))
    ensures key + "=" + value == key + (['='] + (value + ""))
  {
  }

  lemma {:induction false} JoinedPairs(pairs: seq<Pair>)
    requires pairs != [] && CleanKeys(pairs)
    ensures Join(" ", PairTexts(pairs)) == ExtensionText(pairs)
  {
    var key, value := pairs[0].key, Escape('=', pairs[0].value);
    assert pairs[0] in pairs;
    EscapesAreOnePass(pairs[0].value);
    CleanIsUnchanged('=', key);
    if |pairs| == 1 {
      PairShape(key, value, "");
      assert PairTexts(pairs) == [key + "=" + value];
    } else {
      var more := PairTexts(pairs[1..]);
      JoinedPairs(pairs[1..]);
      PairShape(key, value, ExtensionText(pairs[1..]));
      JoinTwo(" ", key + "=" + value, more);
    }
  }

  lemma FieldLiteralsAreClean(level: string)
    ensures Clean("CEF:0") && Clean("RansomGuard") && Clean("EDR") && Clean("1.2") && Clean(SeverityText(level))
  {
    assert Clean("1") && Clean("3") && Clean("5") && Clean("8") && Clean("10");
  }

  lemma FixedKeyLiteralsAreClean()
    ensures Clean("rt") && Clean("cs1Label") && Clean("cs1") && Clean("cs2Label") && Clean("cs2")
    ensures Clean("cs3Label") && Clean("cs3") && Clean("cn1Label") && Clean("cn1") && Clean("cn2Label") && Clean("cn2")
    ensures Clean("dvchost")
  {
  }

  lemma OptionalKeyLiteralsAreClean()
    ensures Clean("dpid") && Clean("dproc") && Clean("fname")
  {
  }

  lemma FixedKeysAreClean(v: Values)
    ensures CleanKeys(FixedPairs(v))
  {
    FixedKeyLiteralsAreClean();
  }

  lemma WithOptional(pairs: seq<Pair>, key: string, value: Option<string>)
    requires CleanKeys(pairs) && Clean(key)
    ensures CleanKeys(pairs + Optional(key, value))
  {
  }

  lemma KeysAreClean(e: Event, technique: string, score: int, level: string, host: string, now: real)
    ensures CleanKeys(PairsOf(e, technique, score, level, host, now))
  {
    var fixed := FixedPairs(ValuesOf(e, technique, score, level, host, now));
    FixedKeysAreClean(ValuesOf(e, technique, score, level, host, now));
    OptionalKeyLiteralsAreClean();
    WithOptional(fixed, "dpid", e.pid);
    WithOptional(fixed + Optional("dpid", e.pid), "dproc", e.process);
    WithOptional(fixed + Optional("dpid", e.pid) + Optional("dproc", e.process), "fname", e.path);
  }

  lemma EscapedHeader(a: string, b: string, c: string, d: string, name: string, message: string, severity: string)
    requires Clean(a) && Clean(b) && Clean(c) && Clean(d) && Clean(severity)
    ensures Join("|", [a, b, c, d, CefHeaderEscape(name), CefHeaderEscape(message), severity]) + "|" ==
            HeaderText([a, b, c, d, name, message, severity])
  {
    EscapesAreOnePass(name);
    EscapesAreOnePass(message);
    CleanIsUnchanged('|', a);
    CleanIsUnchanged('|', b);
    CleanIsUnchanged('|', c);
    CleanIsUnchanged('|', d);
    CleanIsUnchanged('|', severity);
    JoinedFields(
      [a, b, c, d, name, message, severity],
      [a, b, c, d, CefHeaderEscape(name), CefHeaderEscape(message), severity]);
  }

  lemma BuiltRecord(e: Event, technique: string, score: int, level: string, host: string, now: real)
    ensures BuildCef(e, technique, score, level, host, now) ==
            HeaderText(HeaderOf(e, level)) + ExtensionText(PairsOf(e, technique, score, level, host, now))
  {
    var name := GetOr(e.name, "signal");
    FieldLiteralsAreClean(level);
    EscapedHeader("CEF:0", "RansomGuard", "EDR", "1.2", name, GetOr(e.message, name), SeverityText(level));
    KeysAreClean(e, technique, score, level, host, now);
    JoinedPairs(PairsOf(e, technique, score, level, host, now));
  }

  /** Rendering any seven fields and any pairs with clean keys can be undone. */
  lemma RenderingIsInvertible(fields: seq<string>, pairs: seq<Pair>)
    requires |fields| == 7 && pairs != [] && CleanKeys(pairs)
    ensures Parse(HeaderText(fields) + ExtensionText(pairs)) == Some(Record(FlatAll(fields), FlatPairs(pairs)))
  {
    LexHeader(fields, ExtensionText(pairs));
    LexExtension(pairs);
    HeaderIsRecovered(fields, ExtensionTokens(pairs));
    ExtensionIsRecovered(pairs);
  }

  /** Whatever texts an event carries, a reader recovers all seven header fields and every key with its value, line
      breaks having become spaces. */
  lemma RecordIsRecovered(e: Event, technique: string, score: int, level: string, host: string, now: real)
    ensures Parse(BuildCef(e, technique, score, level, host, now)) ==
            Some(Record(
                   FlatAll(HeaderOf(e, level)),
                   FlatPairs(PairsOf(e, technique, score, level, host, now))))
  {
    var fields, pairs := HeaderOf(e, level), PairsOf(e, technique, score, level, host, now);
    BuiltRecord(e, technique, score, level, host, now);
    KeysAreClean(e, technique, score, level, host, now);
    RenderingIsInvertible(fields, pairs);
  }

  lemma {:induction false} FlatPairsHave(pairs: seq<Pair>, p: Pair)
    requires p in pairs
    ensures Pair(p.key, Flat(p.value)) in FlatPairs(pairs)
  {
    if p != pairs[0] {
      FlatPairsHave(pairs[1..], p);
    }
  }

  lemma {:induction false} FlatAllAt(texts: seq<string>, i: nat)
    requires i < |texts|
    ensures |FlatAll(texts)| == |texts| && FlatAll(texts)[i] == Flat(texts[i])
  {
    if 1 < |texts| {
      FlatAllAt(texts[1..], if i == 0 then 0 else i - 1);
    }
  }

  /** A reader finds every pair and every header field of the event in the record. */
  lemma RecordHasPair(e: Event, technique: string, score: int, level: string, host: string, now: real, p: Pair, i: nat)
    requires p in PairsOf(e, technique, score, level, host, now) && i < 7
    ensures var r := Parse(BuildCef(e, technique, score, level, host, now));
            && r.Some? && |r.value.header| == 7
            && r.value.header[i] == Flat(HeaderOf(e, level)[i])
            && Pair(p.key, Flat(p.value)) in r.value.extension
  {
    RecordIsRecovered(e, technique, score, level, host, now);
    FlatAllAt(HeaderOf(e, level), i);
    FlatPairsHave(PairsOf(e, technique, score, level, host, now), p);
  }

  // ----------------------------------------------------- what the header says

  lemma FlatOfSeven(a: string, b: string, c: string, d: string, e: string, f: string, g: string)
    ensures FlatAll([a, b, c, d, e, f, g]) == [Flat(a), Flat(b), Flat(c), Flat(d), Flat(e), Flat(f), Flat(g)]
  {
    var all := [a, b, c, d, e, f, g];
    forall i | 0 <= i < 7
      ensures |FlatAll(all)| == 7 && FlatAll(all)[i] == Flat(all[i])
    {
      FlatAllAt(all, i);
    }
  }

  /** The severity, on the format's scale from 1 to 10. */
  lemma SeverityExactly(level: string)
    ensures SeverityText(level) ==
            if level == "INFO" then "1"
            else if level == "LOW" then "3"
            else if level == "HIGH" then "8"
            else if level == "CRITICAL" then "10"
            else "5"
  {
  }

  lemma FixedFieldsAreFlat(level: string)
    ensures Flat("CEF:0") == "CEF:0" && Flat("RansomGuard") == "RansomGuard"
    ensures Flat("EDR") == "EDR" && Flat("1.2") == "1.2" && Flat(SeverityText(level)) == SeverityText(level)
  {
    FieldLiteralsAreClean(level);
    CleanIsUnchanged('|', "CEF:0");
    CleanIsUnchanged('|', "RansomGuard");
    CleanIsUnchanged('|', "EDR");
    CleanIsUnchanged('|', "1.2");
    CleanIsUnchanged('|', SeverityText(level));
  }

  lemma FlatHeader(e: Event, level: string)
    ensures var name := if e.name.Some? then e.name.value else "signal";
            var message := if e.message.Some? then e.message.value else name;
            FlatAll(HeaderOf(e, level)) ==
            ["CEF:0", "RansomGuard", "EDR", "1.2", Flat(name), Flat(message), SeverityText(level)]
  {
    var name := if e.name.Some? then e.name.value else "signal";
    var message := if e.message.Some? then e.message.value else name;
    FlatOfSeven("CEF:0", "RansomGuard", "EDR", "1.2", name, message, SeverityText(level));
    FixedFieldsAreFlat(level);
  }

  /** What a reader of the record finds in its header: format, vendor, product and version; the signal's name and
      message, with their defaults and line breaks as spaces; and the severity (`SeverityExactly`). */
  lemma ReaderFindsHeader(e: Event, technique: string, score: int, level: string, host: string, now: real)
    ensures var r := Parse(BuildCef(e, technique, score, level, host, now));
            var name := if e.name.Some? then e.name.value else "signal";
            var message := if e.message.Some? then e.message.value else name;
            && r.Some?
            && r.value.header == ["CEF:0", "RansomGuard", "EDR", "1.2", Flat(name), Flat(message), SeverityText(level)]
  {
    RecordIsRecovered(e, technique, score, level, host, now);
    FlatHeader(e, level);
  }

  // ----------------------------------------------- what is under each key

  function NonEmpty(text: Option<string>): Option<string> {
    if text == Some("") then None else text
  }

  function FixedField(v: Values, key: string): Option<string> {
    if key == "rt" then Some(v.millis)
    else if key == "cs1Label" then Some("detector")
    else if key == "cs1" then Some(v.detector)
    else if key == "cs2Label" then Some("mitreTechnique")
    else if key == "cs2" then Some(v.technique)
    else if key == "cs3Label" then Some("threatLevel")
    else if key == "cs3" then Some(v.level)
    else if key == "cn1Label" then Some("weight")
    else if key == "cn1" then Some(v.weight)
    else if key == "cn2Label" then Some("totalScore")
    else if key == "cn2" then Some(v.score)
    else if key == "dvchost" then Some(v.host)
    else None
  }

  /** The text of a key that every record has. */
  function AlwaysUnder(key: string, e: Event, technique: string, score: int, level: string, host: string, now: real)
    : Option<string>
  {
    if key == "rt" then Some(Decimal(MillisOf(e, now)))
    else if key == "cs1Label" then Some("detector")
    else if key == "cs1" then Some(if e.detector.Some? then e.detector.value else "")
    else if key == "cs2Label" then Some("mitreTechnique")
    else if key == "cs2" then Some(technique)
    else if key == "cs3Label" then Some("threatLevel")
    else if key == "cs3" then Some(level)
    else if key == "cn1Label" then Some("weight")
    else if key == "cn1" then Some(Decimal(if e.weight.Some? then e.weight.value else 0))
    else if key == "cn2Label" then Some("totalScore")
    else if key == "cn2" then Some(Decimal(score))
    else if key == "dvchost" then Some(host)
    else None
  }

  lemma AlwaysUnderIsFixed(
    key: string, e: Event, technique: string, score: int, level: string, host: string, now: real)
    ensures AlwaysUnder(key, e, technique, score, level, host, now) ==
            FixedField(ValuesOf(e, technique, score, level, host, now), key)
  {
  }

  /** The time of a record is that of the event, or of the printing when it has none, in milliseconds without their
      fraction. */
  lemma MillisExactly(e: Event, now: real)
    ensures var t := 1000.0 * (if e.timestamp.Some? then e.timestamp.value else now);
            var m := MillisOf(e, now) as real;
            (0.0 <= t ==> m <= t < m + 1.0) && (t < 0.0 ==> m - 1.0 < t <= m)
  {
  }

  /** The event's text for a key: one for every fixed key, one for the process, PID and path when they are not empty,
      and none for any other key. */
  function FieldUnder(key: string, e: Event, technique: string, score: int, level: string, host: string, now: real)
    : Option<string>
  {
    if key == "dpid" then NonEmpty(e.pid)
    else if key == "dproc" then NonEmpty(e.process)
    else if key == "fname" then NonEmpty(e.path)
    else AlwaysUnder(key, e, technique, score, level, host, now)
  }

  /** Enough of a key to tell it from the others: its length and two of its characters. */
  function Shape(key: string): (nat, char, char) {
    (|key|, if 2 < |key| then key[1] else ' ', if 2 < |key| then key[2] else ' ')
  }

  lemma KeyShapes()
    ensures Shape("rt") == (2, ' ', ' ') && Shape("dvchost") == (7, 'v', 'c')
    ensures Shape("cs1Label") == (8, 's', '1') && Shape("cs1") == (3, 's', '1')
    ensures Shape("cs2Label") == (8, 's', '2') && Shape("cs2") == (3, 's', '2')
    ensures Shape("cs3Label") == (8, 's', '3') && Shape("cs3") == (3, 's', '3')
    ensures Shape("cn1Label") == (8, 'n', '1') && Shape("cn1") == (3, 'n', '1')
    ensures Shape("cn2Label") == (8, 'n', '2') && Shape("cn2") == (3, 'n', '2')
    ensures Shape("dpid") == (4, 'p', 'i') && Shape("dproc") == (5, 'p', 'r') && Shape("fname") == (5, 'n', 'a')
  {
  }

  lemma FirstPairsAreFields(v: Values, i: nat)
    requires i < 6
    ensures var p := FixedPairs(v)[i];
            FixedField(v, p.key) == Some(p.value)
  {
    KeyShapes();
  }

  lemma LastPairsAreFields(v: Values, i: nat)
    requires 6 <= i < 12
    ensures var p := FixedPairs(v)[i];
            FixedField(v, p.key) == Some(p.value)
  {
    KeyShapes();
  }

  lemma OptionalKeysAreNotFixed(v: Values)
    ensures FixedField(v, "dpid") == None && FixedField(v, "dproc") == None && FixedField(v, "fname") == None
  {
    KeyShapes();
  }

  /** No key occurs twice among the fixed pairs, nor is one of them an optional key. */
  lemma FixedPairIsField(v: Values, p: Pair)
    requires p in FixedPairs(v)
    ensures FixedField(v, p.key) == Some(p.value)
    ensures p.key != "dpid" && p.key != "dproc" && p.key != "fname"
  {
    var i :| 0 <= i < |FixedPairs(v)| && FixedPairs(v)[i] == p;
    if i < 6 {
      FirstPairsAreFields(v, i);
    } else {
      LastPairsAreFields(v, i);
    }
    OptionalKeysAreNotFixed(v);
  }

  lemma FixedFieldIsPair(v: Values, key: string)
    requires FixedField(v, key).Some?
    ensures Pair(key, FixedField(v, key).value) in FixedPairs(v)
  {
  }

  lemma OptionalPair(key: string, value: Option<string>, p: Pair)
    ensures p in Optional(key, value) <==> p.key == key && NonEmpty(value) == Some(p.value)
  {
  }

  lemma FixedPairIff(v: Values, p: Pair)
    ensures p in FixedPairs(v) <==> FixedField(v, p.key) == Some(p.value)
  {
    if p in FixedPairs(v) {
      FixedPairIsField(v, p);
    }
    if FixedField(v, p.key) == Some(p.value) {
      FixedFieldIsPair(v, p.key);
    }
  }

  lemma OptionalKeysDiffer()
    ensures "dpid" != "dproc" && "dpid" != "fname" && "dproc" != "fname"
  {
    KeyShapes();
  }

  lemma PairIsField(e: Event, technique: string, score: int, level: string, host: string, now: real, p: Pair)
    ensures p in PairsOf(e, technique, score, level, host, now) <==>
            FieldUnder(p.key, e, technique, score, level, host, now) == Some(p.value)
  {
    var v := ValuesOf(e, technique, score, level, host, now);
    AlwaysUnderIsFixed(p.key, e, technique, score, level, host, now);
    FixedPairIff(v, p);
    if p in FixedPairs(v) {
      FixedPairIsField(v, p);
    }
    OptionalKeysDiffer();
    OptionalPair("dpid", e.pid, p);
    OptionalPair("dproc", e.process, p);
    OptionalPair("fname", e.path, p);
  }

  lemma {:induction false} FlatPairsIff(pairs: seq<Pair>, p: Pair)
    ensures p in FlatPairs(pairs) <==> exists v :: Pair(p.key, v) in pairs && p.value == Flat(v)
  {
    if pairs != [] {
      FlatPairsIff(pairs[1..], p);
      assert pairs[0] == Pair(pairs[0].key, pairs[0].value);
      assert forall q :: q in pairs <==> q == pairs[0] || q in pairs[1..];
    }
  }

  /** What a reader of the record finds under each key, for every key: the event's text for it with its line breaks
      turned into spaces, nothing else, and nothing when the event has none. */
  lemma ReaderFindsExactly(
    key: string, e: Event, technique: string, score: int, level: string, host: string, now: real, w: string)
    ensures var r := Parse(BuildCef(e, technique, score, level, host, now));
            var field := FieldUnder(key, e, technique, score, level, host, now);
            r.Some? && (Pair(key, w) in r.value.extension <==> field.Some? && w == Flat(field.value))
  {
    var pairs := PairsOf(e, technique, score, level, host, now);
    RecordIsRecovered(e, technique, score, level, host, now);
    FlatPairsIff(pairs, Pair(key, w));
    forall v
      ensures Pair(key, v) in pairs <==> FieldUnder(key, e, technique, score, level, host, now) == Some(v)
    {
      PairIsField(e, technique, score, level, host, now, Pair(key, v));
    }
  }

  predicate OneLine(s: string) {
    forall c :: c in s ==> !LineBreak(c)
  }

  lemma {:induction false} EscapedIsOneLine(special: char, s: string)
    requires !LineBreak(special)
    ensures OneLine(Escape(special, s))
  {
    if s != "" {
      EscapedIsOneLine(special, s[1..]);
    }
  }

  lemma {:induction false} HeaderIsOneLine(fields: seq<string>)
    ensures OneLine(HeaderText(fields))
  {
    if fields != [] {
      HeaderIsOneLine(fields[1..]);
      EscapedIsOneLine('|', fields[0]);
    }
  }

  lemma {:induction false} ExtensionIsOneLine(pairs: seq<Pair>)
    requires pairs != []
    ensures OneLine(ExtensionText(pairs))
  {
    EscapedIsOneLine('=', pairs[0].key);
    EscapedIsOneLine('=', pairs[0].value);
    if 1 < |pairs| {
      ExtensionIsOneLine(pairs[1..]);
    }
  }

  /** A record never contains a line break, so no event can forge a second syslog line. */
  lemma RecordIsOneLine(e: Event, technique: string, score: int, level: string, host: string, now: real)
    ensures OneLine(BuildCef(e, technique, score, level, host, now))
  {
    BuiltRecord(e, technique, score, level, host, now);
    HeaderIsOneLine(HeaderOf(e, level));
    ExtensionIsOneLine(PairsOf(e, technique, score, level, host, now));
  }
}
