/** The environment file of the scheduler unit: how it is read, and how its two managed keys are
    rewritten in place (rust/scx_catalog/src/envfile.rs).
  */
module EnvFile {
  import opened Options

  const SCHEDULER_KEY := "SCX_SCHEDULER"
  const FLAGS_KEY := "SCX_FLAGS"

  // ----- characters and strings -----

  /** The characters of the Unicode property White_Space. */
  predicate White(c: char) {
    || '\t' <= c <= '\r' || c == ' ' || c == '\U{0085}' || c == '\U{00A0}' || c == '\U{1680}'
    || '\U{2000}' <= c <= '\U{200A}' || c == '\U{2028}' || c == '\U{2029}' || c == '\U{202F}'
    || c == '\U{205F}' || c == '\U{3000}'
  }

  predicate Alphanumeric(c: char) {
    'a' <= c <= 'z' || 'A' <= c <= 'Z' || '0' <= c <= '9'
  }

  function TrimStart(s: string): string {
    if s != [] && White(s[0]) then TrimStart(s[1..]) else s
  }

  function TrimEnd(s: string): string {
    if s != [] && White(s[|s| - 1]) then TrimEnd(s[..|s| - 1]) else s
  }

  function Trim(s: string): string { TrimEnd(TrimStart(s)) }

  function SplitOnce(s: string, c: char): Option<(string, string)> {
    if s == [] then None
    else if s[0] == c then Some(([], s[1..]))
    else match SplitOnce(s[1..], c)
      case None => None
      case Some(kv) => Some(([s[0]] + kv.0, kv.1))
  }

  predicate StartsWith(s: string, prefix: string) { prefix <= s }

  /** The lines of a text: each ends at a line feed, and a carriage return right before it is no part of it. */
  function Lines(s: string): seq<string> {
    if s == [] then [] else LinesFrom([], s)
  }

  function LinesFrom(line: string, s: string): seq<string>
    decreases |s|
  {
    if s == [] then [line]
    else if s[0] == '\n' then [StripCR(line)] + if s[1..] == [] then [] else LinesFrom([], s[1..])
    else LinesFrom(line + [s[0]], s[1..])
  }

  function StripCR(line: string): string {
    if line != [] && line[|line| - 1] == '\r' then line[..|line| - 1] else line
  }

  /** Lines joined by line feeds, with one at the end. */
  function Text(lines: seq<string>): string {
    if lines == [] then [] else lines[0] + "\n" + Text(lines[1..])
  }

  // ----- reading -----

  function Unquote(value: string): string {
    var v := Trim(value);
    if |v| >= 2 && v[0] == '"' && v[|v| - 1] == '"' then v[1..|v| - 1]
    else if |v| >= 2 && v[0] == '\'' && v[|v| - 1] == '\'' then v[1..|v| - 1]
    else v
  }

  predicate KeyChars(s: string) {
    forall c <- s :: Alphanumeric(c) || c == '_'
  }

  predicate Comment(line: string) {
    line != [] && (line[0] == '#' || line[0] == ';')
  }

  /** The assignment on a line. */
  function ParseLine(raw: string): Option<(string, string)> {
    var line := Trim(raw);
    if Comment(line) then None
    else match SplitOnce(line, '=')
      case None => None
      case Some(kv) =>
        var key := Trim(kv.0);
        if key != [] && KeyChars(key) then Some((key, Unquote(kv.1))) else None
  }

  function ParseLines(lines: seq<string>): seq<(string, string)> {
    if lines == [] then []
    else match ParseLine(lines[0])
      case None => ParseLines(lines[1..])
      case Some(kv) => [kv] + ParseLines(lines[1..])
  }

  function Parse(content: string): seq<(string, string)> { ParseLines(Lines(content)) }

  /** The values of a key, in order. */
  function Values(pairs: seq<(string, string)>, key: string): seq<string> {
    if pairs == [] then []
    else (if pairs[0].0 == key then [pairs[0].1] else []) + Values(pairs[1..], key)
  }

  predicate Managed(key: string) { key == SCHEDULER_KEY || key == FLAGS_KEY }

  /** The assignments of all other keys, in order. */
  function Others(pairs: seq<(string, string)>): seq<(string, string)> {
    if pairs == [] then []
    else (if Managed(pairs[0].0) then [] else [pairs[0]]) + Others(pairs[1..])
  }

  // ----- writing -----

  datatype Launch = Set(sched: string, flags: seq<string>) | Clear

  function JoinWords(words: seq<string>): string {
    if words == [] then [] else if |words| == 1 then words[0] else words[0] + " " + JoinWords(words[1..])
  }

  /** What the line of a managed key becomes. */
  function Planned(launch: Launch, key: string): string {
    var sched := if launch.Clear? then "" else launch.sched;
    var flags := if launch.Clear? then "" else JoinWords(launch.flags);
    if key == SCHEDULER_KEY then
      if sched == "" then SCHEDULER_KEY + "=\"\"" else SCHEDULER_KEY + "=" + sched
    else FLAGS_KEY + "=\"" + flags + "\""
  }

  /** The managed key a line assigns to, whatever the blanks around it. */
  function ManagedKey(line: string): Option<string> {
    match SplitOnce(line, '=')
    case None => None
    case Some(kv) => if Managed(Trim(kv.0)) then Some(Trim(kv.0)) else None
  }

  /** The rewritten lines; the keys in seen have been written already. */
  function Rewritten(lines: seq<string>, launch: Launch, seen: set<string>): seq<string> {
    if lines == [] then
      (if SCHEDULER_KEY in seen then [] else [Planned(launch, SCHEDULER_KEY)])
      + (if FLAGS_KEY in seen then [] else [Planned(launch, FLAGS_KEY)])
    else match ManagedKey(lines[0])
      case None => [lines[0]] + Rewritten(lines[1..], launch, seen)
      case Some(k) =>
        if k in seen then Rewritten(lines[1..], launch, seen)
        else [Planned(launch, k)] + Rewritten(lines[1..], launch, seen + {k})
  }

  function Rendered(content: string, launch: Launch): string { Text(Rewritten(Lines(content), launch, {})) }

  function JoinLines(lines: seq<string>): string {
    if lines == [] then [] else if |lines| == 1 then lines[0] else lines[0] + "\n" + JoinLines(lines[1..])
  }

  lemma {:induction false} JoinIsText(lines: seq<string>)
    requires lines != []
    ensures JoinLines(lines) + "\n" == Text(lines)
  {
    if |lines| == 1 {
      assert lines[1..] == [] && Text(lines[1..]) == [];
    } else {
      JoinIsText(lines[1..]);
    }
  }

  /** Rewrites the managed keys in place and appends those that were absent. */
  method Render(content: string, launch: Launch) returns (text: string)
    ensures text == Rendered(content, launch)
  {
    assert Rendered(content, launch) == Text(Rewritten(Lines(content), launch, {}));
    hide Planned, ManagedKey, Lines, Rewritten, Rendered, JoinLines, Text, SCHEDULER_KEY, FLAGS_KEY;
    var input := Lines(content);
    var seen: seq<string>, lines: seq<string> := [], [];
    ghost var written: set<string> := {};
    var i := 0;
    assert input[0..] == input;
    while i < |input|
      invariant i <= |input| && (forall k :: k in seen <==> k in written)
      invariant Rewritten(input, launch, {}) == lines + Rewritten(input[i..], launch, written)
    {
      RewriteStep(input, i, launch, written, lines);
      var key := ManagedKey(input[i]);
      if key.None? {
        lines := lines + [input[i]];
      } else if key.value !in seen {
        seen := seen + [key.value];
        written := written + {key.value};
        lines := lines + [Planned(launch, key.value)];
      }
      i := i + 1;
    }
    RewriteEnd(input, launch, written, lines);
    if SCHEDULER_KEY !in seen {
      lines := lines + [Planned(launch, SCHEDULER_KEY)];
    }
    if FLAGS_KEY !in seen {
      lines := lines + [Planned(launch, FLAGS_KEY)];
    }
    JoinIsText(lines);
    text := JoinLines(lines) + "\n";
  }

  lemma RewriteStep(input: seq<string>, i: nat, launch: Launch, seen: set<string>, lines: seq<string>)
    requires i < |input|
    ensures var k := ManagedKey(input[i]);
      lines + Rewritten(input[i..], launch, seen) ==
        if k.None? then lines + [input[i]] + Rewritten(input[i + 1..], launch, seen)
        else if k.value in seen then lines + Rewritten(input[i + 1..], launch, seen)
        else lines + [Planned(launch, k.value)] + Rewritten(input[i + 1..], launch, seen + {k.value})
  {
    hide Planned, ManagedKey;
    assert input[i..][1..] == input[i + 1..];
  }

  lemma RewriteEnd(input: seq<string>, launch: Launch, seen: set<string>, lines: seq<string>)
    ensures lines + Rewritten(input[|input|..], launch, seen) ==
      if SCHEDULER_KEY in seen then if FLAGS_KEY in seen then lines else lines + [Planned(launch, FLAGS_KEY)]
      else if FLAGS_KEY in seen then lines + [Planned(launch, SCHEDULER_KEY)]
      else lines + [Planned(launch, SCHEDULER_KEY)] + [Planned(launch, FLAGS_KEY)]
    ensures Rewritten(input, launch, {}) != []
  {
    hide Planned, ManagedKey;
    assert input[|input|..] == [];
  }

  // ----- trimming and splitting -----

  lemma {:induction false} TrimFront(w: char, s: string)
    requires White(w)
    ensures Trim([w] + s) == Trim(s)
  {
    assert ([w] + s)[1..] == s;
  }

  lemma {:induction false} TrimStartLonger(s: string, w: char)
    ensures TrimStart(s + [w]) == if TrimStart(s) != [] then TrimStart(s) + [w] else TrimStart([w])
  {
    if s == [] {
      assert s + [w] == [w];
    } else if White(s[0]) {
      assert (s + [w])[1..] == s[1..] + [w];
      TrimStartLonger(s[1..], w);
    } else {
      assert (s + [w])[0] == s[0];
    }
  }

  lemma TrimBack(s: string, w: char)
    requires White(w)
    ensures Trim(s + [w]) == Trim(s)
  {
    TrimStartLonger(s, w);
    var t := TrimStart(s);
    if t == [] {
      assert [w][1..] == [];
    } else {
      assert (t + [w])[..|t|] == t;
    }
  }

  /** Nothing to trim. */
  predicate Tight(s: string) { s == [] || (!White(s[0]) && !White(s[|s| - 1])) }

  lemma {:induction false} SplitLonger(s: string, w: char, c: char)
    requires w != c
    ensures match SplitOnce(s, c)
      case None => SplitOnce(s + [w], c).None?
      case Some(kv) => SplitOnce(s + [w], c) == Some((kv.0, kv.1 + [w]))
  {
    if s == [] {
      assert (s + [w]) == [w] && [w][1..] == [];
    } else {
      assert (s + [w])[1..] == s[1..] + [w] && (s + [w])[0] == s[0];
      SplitLonger(s[1..], w, c);
    }
  }

  /** Two ways to split that differ in blanks only. */
  ghost predicate Alike(a: Option<(string, string)>, b: Option<(string, string)>) {
    a.Some? == b.Some? && (a.Some? ==> Trim(a.value.0) == Trim(b.value.0) && Trim(a.value.1) == Trim(b.value.1))
  }

  lemma {:induction false} SplitTrimStart(s: string)
    ensures Alike(SplitOnce(TrimStart(s), '='), SplitOnce(s, '='))
  {
    if s != [] && White(s[0]) {
      SplitTrimStart(s[1..]);
      match SplitOnce(s[1..], '=') {
        case None =>
        case Some(kv) => TrimFront(s[0], kv.0);
      }
    }
  }

  lemma {:induction false} SplitTrimEnd(s: string)
    ensures Alike(SplitOnce(TrimEnd(s), '='), SplitOnce(s, '='))
  {
    if s != [] && White(s[|s| - 1]) {
      var r, w := s[..|s| - 1], s[|s| - 1];
      assert s == r + [w];
      SplitTrimEnd(r);
      SplitLonger(r, w, '=');
      match SplitOnce(r, '=') {
        case None =>
        case Some(kv) => TrimBack(kv.1, w);
      }
    }
  }

  /** The key of an assignment is the same with and without the blanks around the line. */
  lemma KeyOfLine(line: string)
    ensures Alike(SplitOnce(Trim(line), '='), SplitOnce(line, '='))
  {
    SplitTrimStart(line);
    SplitTrimEnd(TrimStart(line));
  }

  lemma ReadersAgree(line: string)
    ensures ParseLine(line).Some? ==> (ManagedKey(line).Some? <==> Managed(ParseLine(line).value.0))
  {
    KeyOfLine(line);
  }

  lemma StripIsBlank(line: string)
    ensures ParseLine(StripCR(line)) == ParseLine(line)
  {
    var t := StripCR(line);
    if t != line {
      assert line == t + ['\r'];
      TrimBack(t, '\r');
    }
  }

  // ----- lines -----

  ghost predicate OneLine(s: string) { '\n' !in s }

  ghost predicate AllOneLine(lines: seq<string>) {
    forall l <- lines :: OneLine(l)
  }

  function StripAll(lines: seq<string>): seq<string> {
    if lines == [] then [] else [StripCR(lines[0])] + StripAll(lines[1..])
  }

  lemma {:induction false} LineOut(before: string, line: string, rest: string)
    requires OneLine(line)
    ensures LinesFrom(before, line + "\n" + rest) == [StripCR(before + line)] + Lines(rest)
    decreases |line|
  {
    var s := line + "\n" + rest;
    if line == [] {
      assert s[0] == '\n' && s[1..] == rest && before + line == before;
    } else {
      assert s[0] == line[0] && s[1..] == line[1..] + "\n" + rest;
      LineOut(before + [line[0]], line[1..], rest);
      assert before + [line[0]] + line[1..] == before + line;
    }
  }

  /** Reading back a text of whole lines gives the lines, but for a carriage return at the end of one. */
  lemma {:induction false} LinesOfText(lines: seq<string>)
    requires AllOneLine(lines)
    ensures Lines(Text(lines)) == StripAll(lines)
  {
    if lines != [] {
      LinesOfText(lines[1..]);
      LineOut([], lines[0], Text(lines[1..]));
      assert [] + lines[0] == lines[0];
    }
  }

  lemma {:induction false} LinesAreLines(before: string, s: string)
    requires OneLine(before)
    ensures AllOneLine(LinesFrom(before, s))
    decreases |s|
  {
    if s != [] {
      if s[0] == '\n' {
        if s[1..] != [] {
          LinesAreLines([], s[1..]);
        }
      } else {
        LinesAreLines(before + [s[0]], s[1..]);
      }
    }
  }

  lemma {:induction false} ParseStripped(lines: seq<string>)
    ensures ParseLines(StripAll(lines)) == ParseLines(lines)
  {
    if lines != [] {
      StripIsBlank(lines[0]);
      ParseStripped(lines[1..]);
    }
  }

  // ----- the lines that are written -----

  /** Values that a line holds without quotes. */
  ghost predicate Bare(sched: string) {
    OneLine(sched) && Tight(sched) && (sched != [] ==> sched[0] != '"' && sched[0] != '\'')
  }

  ghost predicate Readable(launch: Launch) {
    launch.Set? ==> Bare(launch.sched) && OneLine(JoinWords(launch.flags))
  }

  ghost function SchedOf(launch: Launch): string { if launch.Clear? then "" else launch.sched }

  ghost function FlagsOf(launch: Launch): string { if launch.Clear? then "" else JoinWords(launch.flags) }

  lemma TightTrim(s: string)
    requires Tight(s)
    ensures Trim(s) == s
  {
  }

  lemma {:induction false} SplitAtKey(key: string, value: string)
    requires '=' !in key
    ensures SplitOnce(key + "=" + value, '=') == Some((key, value))
  {
    var s := key + "=" + value;
    if key == [] {
      assert s[0] == '=' && s[1..] == value;
    } else {
      assert s[0] == key[0] && s[1..] == key[1..] + "=" + value;
      SplitAtKey(key[1..], value);
      assert [key[0]] + key[1..] == key;
    }
  }

  lemma KeysAreKeys(key: string)
    requires Managed(key)
    ensures key != [] && KeyChars(key) && '=' !in key && Tight(key) && !Comment(key) && OneLine(key)
  {
  }

  /** Reading a line that assigns a value with nothing but visible characters at its ends. */
  lemma AssignedLine(key: string, value: string)
    requires Managed(key) && (value != [] ==> !White(value[|value| - 1]))
    ensures ParseLine(key + "=" + value) == Some((key, Unquote(value))) && ManagedKey(key + "=" + value) == Some(key)
  {
    KeysAreKeys(key);
    hide Managed;
    var s := key + "=" + value;
    assert s[0] == key[0] && s[|s| - 1] == if value == [] then '=' else value[|value| - 1];
    TightTrim(s);
    TightTrim(key);
    SplitAtKey(key, value);
  }

  /** A value in quotes of either kind is read without them, and one that does not stand in quotes as it is. */
  lemma QuotedValue(v: string)
    ensures Unquote("\"" + v + "\"") == v && Unquote("'" + v + "'") == v
    ensures Tight(v) && (|v| < 2 || v[0] != v[|v| - 1] || (v[0] != '"' && v[0] != '\'')) ==> Unquote(v) == v
  {
    var q, p := "\"" + v + "\"", "'" + v + "'";
    assert q[0] == '"' && q[|q| - 1] == '"' && p[0] == '\'' && p[|p| - 1] == '\'';
    TightTrim(q);
    TightTrim(p);
    assert q[1..|q| - 1] == v && p[1..|p| - 1] == v;
    if Tight(v) {
      TightTrim(v);
    }
  }

  /** The text of a managed key's line, behind the equals sign. */
  ghost function PlannedValue(launch: Launch, key: string): string {
    if key == SCHEDULER_KEY && SchedOf(launch) != "" then SchedOf(launch)
    else "\"" + (if key == SCHEDULER_KEY then "" else FlagsOf(launch)) + "\""
  }

  lemma PlannedIs(launch: Launch, key: string)
    requires Managed(key)
    ensures Planned(launch, key) == key + "=" + PlannedValue(launch, key)
  {
    assert "\"" + "" + "\"" == "\"\"";
    if key == FLAGS_KEY {
      var f := FlagsOf(launch);
      assert FLAGS_KEY + "=\"" + f + "\"" == FLAGS_KEY + "=" + ("\"" + f + "\"");
    } else if SchedOf(launch) == "" {
      assert SCHEDULER_KEY + "=\"\"" == SCHEDULER_KEY + "=" + "\"\"";
    }
  }

  lemma PlannedReads(launch: Launch, key: string)
    requires Readable(launch)
    ensures var v := PlannedValue(launch, key);
      && v != [] && !White(v[|v| - 1]) && OneLine(v)
      && Unquote(v) == if key == SCHEDULER_KEY then SchedOf(launch) else FlagsOf(launch)
  {
    hide JoinWords;
    if key == SCHEDULER_KEY && SchedOf(launch) != "" {
      TightTrim(SchedOf(launch));
    } else {
      QuotedValue(if key == SCHEDULER_KEY then "" else FlagsOf(launch));
    }
  }

  lemma PlannedLine(launch: Launch, key: string)
    requires Readable(launch) && Managed(key)
    ensures ParseLine(Planned(launch, key)) ==
      Some((key, if key == SCHEDULER_KEY then SchedOf(launch) else FlagsOf(launch)))
    ensures ManagedKey(Planned(launch, key)) == Some(key) && OneLine(Planned(launch, key))
  {
    hide *;
    PlannedIs(launch, key);
    PlannedReads(launch, key);
    AssignedLine(key, PlannedValue(launch, key));
    KeysAreKeys(key);
    OneLineConcat(key, PlannedValue(launch, key));
  }

  lemma OneLineConcat(key: string, value: string)
    requires OneLine(key) && OneLine(value)
    ensures OneLine(key + "=" + value)
  {
  }

  // ----- what a rewrite keeps and what it sets -----

  lemma {:induction false} RewrittenOneLine(lines: seq<string>, launch: Launch, seen: set<string>)
    requires AllOneLine(lines) && Readable(launch)
    ensures AllOneLine(Rewritten(lines, launch, seen))
  {
    hide Planned, OneLine, ManagedKey, SCHEDULER_KEY, FLAGS_KEY;
    MayPlan(launch);
    if lines != [] {
      var k := ManagedKey(lines[0]);
      RewrittenOneLine(lines[1..], launch, if k.None? then seen else seen + {k.value});
      RewrittenOneLine(lines[1..], launch, seen);
      ManagedIs(lines[0]);
      OnlyTwo(k);
    }
  }

  lemma ParseStep(line: string, rest: seq<string>)
    ensures ParseLines([line] + rest) ==
      match ParseLine(line)
      case None => ParseLines(rest)
      case Some(kv) => [kv] + ParseLines(rest)
  {
    assert ([line] + rest)[1..] == rest;
  }

  lemma PairStep(kv: (string, string), rest: seq<(string, string)>, key: string)
    ensures Others([kv] + rest) == (if Managed(kv.0) then [] else [kv]) + Others(rest)
    ensures Values([kv] + rest, key) == (if kv.0 == key then [kv.1] else []) + Values(rest, key)
  {
    assert ([kv] + rest)[1..] == rest;
  }

  /** What a line that assigns to a managed key adds. */
  lemma ManagedStep(launch: Launch, k: string, rest: seq<string>, key: string)
    requires Readable(launch) && Managed(k)
    ensures Others(ParseLines([Planned(launch, k)] + rest)) == Others(ParseLines(rest))
    ensures Values(ParseLines([Planned(launch, k)] + rest), key) ==
      (if k == key then [if key == SCHEDULER_KEY then SchedOf(launch) else FlagsOf(launch)] else [])
        + Values(ParseLines(rest), key)
  {
    hide *;
    PlannedLine(launch, k);
    ParseStep(Planned(launch, k), rest);
    PairStep((k, if k == SCHEDULER_KEY then SchedOf(launch) else FlagsOf(launch)), ParseLines(rest), key);
  }

  /** What any other line adds, whether it is kept or not. */
  lemma LineStep(line: string, rest: seq<string>, key: string)
    requires Managed(key)
    ensures ManagedKey(line).Some? ==> Others(ParseLines([line] + rest)) == Others(ParseLines(rest))
    ensures ManagedKey(line).None? ==> Values(ParseLines([line] + rest), key) == Values(ParseLines(rest), key)
    ensures ManagedKey(line).None? ==> Others(ParseLines([line] + rest)) == OtherOf(line) + Others(ParseLines(rest))
  {
    ReadersAgree(line);
    ParseStep(line, rest);
    hide ParseLine, ParseLines, ManagedKey;
    if ParseLine(line).Some? {
      PairStep(ParseLine(line).value, ParseLines(rest), key);
    }
  }

  ghost function OtherOf(line: string): seq<(string, string)> {
    if ParseLine(line).None? then [] else [ParseLine(line).value]
  }

  lemma RewriteTail(launch: Launch, seen: set<string>, key: string)
    requires Readable(launch) && Managed(key)
    ensures var p := ParseLines(Rewritten([], launch, seen));
      Others(p) == [] && Values(p, key) == if key in seen then []
        else [if key == SCHEDULER_KEY then SchedOf(launch) else FlagsOf(launch)]
  {
    hide Planned, ParseLine, SCHEDULER_KEY, FLAGS_KEY, ParseLines;
    MayPlan(launch);
    ParseNothing();
    var tail := if FLAGS_KEY in seen then [] else [Planned(launch, FLAGS_KEY)];
    ManagedStep(launch, FLAGS_KEY, [], key);
    ManagedStep(launch, SCHEDULER_KEY, tail, key);
    assert [Planned(launch, FLAGS_KEY)] + [] == [Planned(launch, FLAGS_KEY)];
    assert [] + tail == tail;
    assert Rewritten([], launch, seen) == if SCHEDULER_KEY in seen then tail
      else [Planned(launch, SCHEDULER_KEY)] + tail;
  }

  lemma ParseNothing()
    ensures ParseLines([]) == []
  {
  }

  lemma MayPlan(launch: Launch)
    requires Readable(launch)
    ensures Managed(SCHEDULER_KEY) && Managed(FLAGS_KEY) && SCHEDULER_KEY != FLAGS_KEY
    ensures ManagedKey(Planned(launch, SCHEDULER_KEY)).Some? && ManagedKey(Planned(launch, FLAGS_KEY)).Some?
    ensures OneLine(Planned(launch, SCHEDULER_KEY)) && OneLine(Planned(launch, FLAGS_KEY))
  {
    PlannedLine(launch, SCHEDULER_KEY);
    PlannedLine(launch, FLAGS_KEY);
  }

  /** The assignments of all other keys stay, in order; each managed key is assigned once. */
  lemma {:induction false} RewrittenPairs(lines: seq<string>, launch: Launch, seen: set<string>, key: string)
    requires Readable(launch) && Managed(key)
    ensures var p := ParseLines(Rewritten(lines, launch, seen));
      && Others(p) == Others(ParseLines(lines))
      && Values(p, key) == if key in seen then []
        else [if key == SCHEDULER_KEY then SchedOf(launch) else FlagsOf(launch)]
  {
    if lines == [] {
      RewriteTail(launch, seen, key);
    } else {
      hide ParseLines, Planned, Readable;
      var k := ManagedKey(lines[0]);
      var seen' := if k.Some? then seen + {k.value} else seen;
      RewrittenPairs(lines[1..], launch, seen', key);
      LineStep(lines[0], lines[1..], key);
      LineStep(lines[0], Rewritten(lines[1..], launch, seen'), key);
      assert [lines[0]] + lines[1..] == lines;
      if k.Some? {
        assert k.value in seen ==> seen' == seen;
        ManagedStep(launch, k.value, Rewritten(lines[1..], launch, seen'), key);
      }
    }
  }

  /** Reading a rewritten file back: both managed keys hold what was written, once, and the others what they held. */
  lemma RenderParses(content: string, launch: Launch)
    requires Readable(launch)
    ensures var p := Parse(Rendered(content, launch));
      && Others(p) == Others(Parse(content))
      && Values(p, SCHEDULER_KEY) == [SchedOf(launch)] && Values(p, FLAGS_KEY) == [FlagsOf(launch)]
  {
    hide ParseLines, Rewritten, Readable, SchedOf, FlagsOf, Others, Values;
    var lines := Lines(content);
    if content != [] {
      LinesAreLines([], content);
    }
    RewrittenOneLine(lines, launch, {});
    LinesOfText(Rewritten(lines, launch, {}));
    ParseStripped(Rewritten(lines, launch, {}));
    RewrittenPairs(lines, launch, {}, SCHEDULER_KEY);
    RewrittenPairs(lines, launch, {}, FLAGS_KEY);
  }

  // ----- the other lines, letter by letter -----

  function Kept(lines: seq<string>): seq<string> {
    if lines == [] then []
    else (if ManagedKey(lines[0]).None? then [lines[0]] else []) + Kept(lines[1..])
  }

  lemma KeptStep(line: string, rest: seq<string>)
    ensures Kept([line] + rest) == (if ManagedKey(line).None? then [line] else []) + Kept(rest)
  {
    assert ([line] + rest)[1..] == rest;
  }

  lemma KeptTail(launch: Launch, seen: set<string>)
    requires Readable(launch)
    ensures Kept(Rewritten([], launch, seen)) == []
  {
    var tail := if FLAGS_KEY in seen then [] else [Planned(launch, FLAGS_KEY)];
    hide Planned, ManagedKey, ParseLine, SCHEDULER_KEY, FLAGS_KEY;
    MayPlan(launch);
    KeptStep(Planned(launch, FLAGS_KEY), []);
    KeptStep(Planned(launch, SCHEDULER_KEY), tail);
    assert [Planned(launch, FLAGS_KEY)] + [] == [Planned(launch, FLAGS_KEY)];
  }

  lemma {:induction false} RewrittenKeeps(lines: seq<string>, launch: Launch, seen: set<string>)
    requires Readable(launch)
    ensures Kept(Rewritten(lines, launch, seen)) == Kept(lines)
  {
    if lines == [] {
      KeptTail(launch, seen);
    } else {
      var k := ManagedKey(lines[0]);
      hide Planned, Readable, ManagedKey;
      var seen' := if k.Some? then seen + {k.value} else seen;
      RewrittenKeeps(lines[1..], launch, seen');
      assert k.Some? && k.value in seen ==> seen' == seen;
      KeptStep(lines[0], Rewritten(lines[1..], launch, seen'));
      if k.Some? {
        ManagedIs(lines[0]);
        PlannedLine(launch, k.value);
        KeptStep(Planned(launch, k.value), Rewritten(lines[1..], launch, seen'));
      }
    }
  }

  lemma OnlyTwo(k: Option<string>)
    requires k.Some? ==> Managed(k.value)
    ensures k.Some? ==> k.value == SCHEDULER_KEY || k.value == FLAGS_KEY
  {
  }

  lemma ManagedIs(line: string)
    ensures ManagedKey(line).Some? ==> Managed(ManagedKey(line).value)
  {
  }

  lemma StripSameKey(line: string)
    ensures ManagedKey(StripCR(line)) == ManagedKey(line)
  {
    var t := StripCR(line);
    if t != line {
      assert line == t + ['\r'];
      SplitLonger(t, '\r', '=');
    }
  }

  lemma {:induction false} KeptStripped(lines: seq<string>)
    ensures Kept(StripAll(lines)) == StripAll(Kept(lines))
  {
    if lines != [] {
      StripSameKey(lines[0]);
      hide ManagedKey, StripCR;
      KeptStripped(lines[1..]);
      KeptStep(StripCR(lines[0]), StripAll(lines[1..]));
      assert ([lines[0]] + Kept(lines[1..]))[1..] == Kept(lines[1..]) && [] + Kept(lines[1..]) == Kept(lines[1..]);
      assert [] + StripAll(Kept(lines[1..])) == StripAll(Kept(lines[1..]));
    }
  }

  ghost predicate EndsInCR(line: string) { line != [] && line[|line| - 1] == '\r' }

  lemma {:induction false} StripAllSame(lines: seq<string>)
    ensures StripAll(lines) == lines <==> forall l <- lines :: !EndsInCR(l)
  {
    if lines != [] {
      StripAllSame(lines[1..]);
      assert StripAll(lines)[0] == StripCR(lines[0]) && StripAll(lines)[1..] == StripAll(lines[1..]);
      assert lines[0] in lines && forall l <- lines[1..] :: l in lines;
      assert forall l <- lines :: l == lines[0] || l in lines[1..];
    }
  }

  /** The lines of all other keys stay as they are exactly when none of them ends in a carriage return. */
  lemma KeptExactly(content: string, launch: Launch)
    requires Readable(launch)
    ensures Kept(Lines(Rendered(content, launch))) == Kept(Lines(content)) <==>
      forall l <- Kept(Lines(content)) :: !EndsInCR(l)
  {
    hide Rewritten, Readable, Kept;
    var lines := Lines(content);
    if content != [] {
      LinesAreLines([], content);
    }
    RewrittenOneLine(lines, launch, {});
    LinesOfText(Rewritten(lines, launch, {}));
    RewrittenKeeps(lines, launch, {});
    KeptStripped(Rewritten(lines, launch, {}));
    StripAllSame(Kept(lines));
  }

  // ----- options -----

  /** The first word of a string that starts with one, and what follows it. */
  function FirstWord(s: string): (r: (string, string))
    ensures |r.1| <= |s| && (s != [] && !White(s[0]) ==> |r.1| < |s|)
  {
    if s == [] || White(s[0]) then ([], s)
    else var r := FirstWord(s[1..]); ([s[0]] + r.0, r.1)
  }

  lemma {:induction false} TrimStartShorter(s: string)
    ensures |TrimStart(s)| <= |s| && (TrimStart(s) != [] ==> !White(TrimStart(s)[0]))
  {
    if s != [] && White(s[0]) {
      TrimStartShorter(s[1..]);
    }
  }

  function SplitFlags(s: string): seq<string>
    decreases |s|
  {
    var t := TrimStart(s);
    if t == [] then []
    else
      TrimStartShorter(s);
      var r := FirstWord(t);
      [r.0] + SplitFlags(r.1)
  }

  ghost predicate Word(w: string) {
    w != [] && forall c <- w :: !White(c)
  }

  lemma {:induction false} WordOut(w: string, rest: string)
    requires Word(w) && (rest == [] || White(rest[0]))
    ensures FirstWord(w + rest) == (w, rest)
  {
    assert (w + rest)[0] == w[0] && w[0] in w && (w + rest)[1..] == w[1..] + rest;
    if |w| == 1 {
      assert w[1..] + rest == rest && [w[0]] + [] == w;
      assert FirstWord(rest) == ([], rest);
    } else {
      assert forall c <- w[1..] :: c in w;
      WordOut(w[1..], rest);
      assert [w[0]] + w[1..] == w;
    }
  }

  /** Options survive being written on one line and split again. */
  lemma {:induction false} FlagsRoundTrip(flags: seq<string>)
    requires forall w <- flags :: Word(w)
    ensures SplitFlags(JoinWords(flags)) == flags
  {
    if flags != [] {
      var w, rest := flags[0], flags[1..];
      assert flags[0] in flags && w[0] in w && forall x <- rest :: x in flags;
      FlagsRoundTrip(rest);
      if rest == [] {
        assert w + [] == w;
        WordOut(w, []);
      } else {
        WordOut(w, " " + JoinWords(rest));
        assert w + " " + JoinWords(rest) == w + (" " + JoinWords(rest));
        BlankFirst(JoinWords(rest));
      }
    }
  }

  lemma BlankFirst(s: string)
    ensures SplitFlags(" " + s) == SplitFlags(s)
  {
    assert (" " + s)[1..] == s;
  }

  // ----- files that are refused -----

  function WithoutCRLF(s: string): string {
    if s == [] then []
    else if |s| >= 2 && s[0] == '\r' && s[1] == '\n' then WithoutCRLF(s[2..])
    else [s[0]] + WithoutCRLF(s[1..])
  }

  /** A quoted value, given from after its opening quote, is closed by the last visible character of its line. */
  function Closes(rest: string, quote: char, escaped: bool): bool {
    if rest == [] then false
    else if quote == '"' && escaped then Closes(rest[1..], quote, false)
    else if quote == '"' && rest[0] == '\\' then Closes(rest[1..], quote, true)
    else if rest[0] == quote then Trim(rest[1..]) == []
    else Closes(rest[1..], quote, escaped)
  }

  /** How many backslashes stand right before a place. */
  function Backslashes(s: string, i: nat): nat
    requires i <= |s|
  {
    if i > 0 && s[i - 1] == '\\' then Backslashes(s, i - 1) + 1 else 0
  }

  /** Inside double quotes a character behind an odd number of backslashes is escaped. */
  predicate Escaped(s: string, quote: char, i: nat)
    requires i <= |s|
  {
    quote == '"' && Backslashes(s, i) % 2 == 1
  }

  predicate EndsQuote(s: string, quote: char, i: nat)
    requires i < |s|
  {
    s[i] == quote && !Escaped(s, quote, i)
  }

  predicate AllWhite(s: string) { forall c <- s :: White(c) }

  /** The first quote that is not escaped is there, and only blanks follow it. */
  ghost predicate ClosedFrom(s: string, quote: char, i: nat)
    requires i <= |s|
  {
    exists j :: i <= j < |s| && EndsQuote(s, quote, j) && (forall k :: i <= k < j ==> !EndsQuote(s, quote, k))
      && AllWhite(s[j + 1..])
  }

  lemma {:induction false} TrimStartWhite(s: string)
    ensures TrimStart(s) == [] <==> AllWhite(s)
  {
    if s != [] {
      assert s == [s[0]] + s[1..];
      if White(s[0]) {
        TrimStartWhite(s[1..]);
      }
    }
  }

  lemma TrimWhite(s: string)
    ensures Trim(s) == [] <==> AllWhite(s)
  {
    TrimStartWhite(s);
    TrimStartShorter(s);
    if TrimStart(s) != [] {
      TrimEndKeepsFirst(TrimStart(s));
    }
  }

  lemma {:induction false} ClosesMeans(s: string, quote: char, i: nat)
    requires i <= |s| && quote != '\\'
    ensures Closes(s[i..], quote, Escaped(s, quote, i)) <==> ClosedFrom(s, quote, i)
    decreases |s| - i
  {
    if i < |s| {
      assert s[i..][0] == s[i] && s[i..][1..] == s[i + 1..];
      ClosesMeans(s, quote, i + 1);
      TrimWhite(s[i + 1..]);
      if EndsQuote(s, quote, i) {
        assert ClosedFrom(s, quote, i) <==> AllWhite(s[i + 1..]);
      } else {
        assert ClosedFrom(s, quote, i) <==> ClosedFrom(s, quote, i + 1);
      }
    }
  }

  /** Decides whether the quote is closed on the line, by the last visible character of the line. */
  method ClosesOnTheLine(rest: string, quote: char) returns (closes: bool)
    requires quote == '"' || quote == '\''
    ensures closes == Closes(rest, quote, false)
    ensures closes <==> ClosedFrom(rest, quote, 0)
  {
    ClosesMeans(rest, quote, 0);
    assert rest[0..] == rest;
    var escaped := false;
    for i := 0 to |rest|
      invariant Closes(rest, quote, false) == Closes(rest[i..], quote, escaped)
    {
      var c := rest[i];
      assert rest[i..][0] == c && rest[i..][1..] == rest[i + 1..];
      if quote == '"' {
        if escaped {
          escaped := false;
          continue;
        }
        if c == '\\' {
          escaped := true;
          continue;
        }
      }
      if c == quote {
        return Trim(rest[i + 1..]) == [];
      }
    }
    return false;
  }

  predicate LineSupported(raw: string) {
    var line := Trim(raw);
    line == [] || Comment(line) ||
    (line[|line| - 1] != '\\' &&
     match SplitOnce(line, '=')
     case None => true
     case Some(kv) =>
       var v := Trim(kv.1);
       v == [] || (v[0] != '"' && v[0] != '\'') || Closes(v[1..], v[0], false))
  }

  /** The file uses only what the line-based reader and systemd read alike. */
  predicate Supported(content: string) {
    '\r' !in WithoutCRLF(content) && forall l <- Lines(content) :: LineSupported(l)
  }

  ghost predicate NoCR(s: string) { '\r' !in s }

  lemma LoneCR(s: string)
    requires s != [] && s[0] == '\r' && !(|s| >= 2 && s[1] == '\n')
    ensures !NoCR(WithoutCRLF(s))
  {
    assert WithoutCRLF(s)[0] == '\r';
  }

  lemma {:induction false} NoBareCR(before: string, s: string)
    requires NoCR(WithoutCRLF(s))
    requires NoCR(before) || (EndsInCR(before) && NoCR(before[..|before| - 1]) && s != [] && s[0] == '\n')
    ensures forall l <- LinesFrom(before, s) :: NoCR(l)
    decreases |s|
  {
    if s != [] {
      if s[0] == '\n' {
        assert NoCR(StripCR(before));
        if s[1..] != [] {
          NoBareCR([], s[1..]);
        }
      } else {
        var next := before + [s[0]];
        assert next[..|next| - 1] == before;
        if s[0] == '\r' {
          if !(|s| >= 2 && s[1] == '\n') {
            LoneCR(s);
          }
          assert s[1..][1..] == s[2..];
          assert WithoutCRLF(s[1..]) == ['\n'] + WithoutCRLF(s[2..]);
        }
        NoBareCR(next, s[1..]);
      }
    }
  }

  lemma {:induction false} NothingToRemove(s: string)
    requires NoCR(s)
    ensures WithoutCRLF(s) == s
  {
    if s != [] {
      NothingToRemove(s[1..]);
    }
  }

  lemma {:induction false} TextNoCR(lines: seq<string>)
    requires forall l <- lines :: NoCR(l)
    ensures NoCR(Text(lines))
  {
    if lines != [] {
      assert NoCR(lines[0]);
      TextNoCR(lines[1..]);
    }
  }

  /** Options that a double-quoted value holds as they are. */
  ghost predicate Plain(s: string) {
    forall c <- s :: c != '\r' && c != '\n' && c != '"' && c != '\\'
  }

  lemma {:induction false} PlainCloses(s: string)
    requires Plain(s)
    ensures Closes(s + "\"", '"', false)
  {
    var t := s + "\"";
    if s == [] {
      assert t[0] == '"' && t[1..] == [];
    } else {
      assert t[0] == s[0] && s[0] in s && t[1..] == s[1..] + "\"";
      assert forall c <- s[1..] :: c in s;
      PlainCloses(s[1..]);
    }
  }

  /** What every launch that is started writes. */
  ghost predicate Sound(launch: Launch) {
    && Readable(launch)
    && (launch.Set? ==>
          launch.sched != [] && launch.sched[|launch.sched| - 1] != '\\' && Plain(JoinWords(launch.flags)))
  }

  lemma AssignmentSupported(key: string, value: string)
    requires Managed(key) && value != [] && !White(value[|value| - 1]) && value[|value| - 1] != '\\'
    requires var v := Trim(value); v == [] || (v[0] != '"' && v[0] != '\'') || Closes(v[1..], v[0], false)
    ensures LineSupported(key + "=" + value)
  {
    KeysAreKeys(key);
    hide Managed;
    var s := key + "=" + value;
    assert s[0] == key[0] && s[|s| - 1] == value[|value| - 1];
    TightTrim(s);
    SplitAtKey(key, value);
  }

  lemma QuotedSupported(key: string, v: string)
    requires Managed(key) && Plain(v)
    ensures LineSupported(key + "=" + ("\"" + v + "\""))
  {
    var q := "\"" + v + "\"";
    assert q[0] == '"' && q[|q| - 1] == '"' && q[1..] == v + "\"";
    TightTrim(q);
    PlainCloses(v);
    AssignmentSupported(key, q);
  }

  lemma PlannedSupported(launch: Launch, key: string)
    requires Sound(launch) && Managed(key)
    ensures LineSupported(Planned(launch, key))
  {
    PlannedIs(launch, key);
    hide LineSupported, Planned, JoinWords;
    if key == SCHEDULER_KEY && SchedOf(launch) != "" {
      TightTrim(SchedOf(launch));
      AssignmentSupported(key, SchedOf(launch));
    } else {
      QuotedSupported(key, if key == SCHEDULER_KEY then "" else FlagsOf(launch));
    }
  }

  ghost predicate Good(line: string) { NoCR(line) && LineSupported(line) }

  lemma PlannedGood(launch: Launch, key: string)
    requires Sound(launch) && Managed(key) && NoCR(SchedOf(launch))
    ensures Good(Planned(launch, key))
  {
    PlannedSupported(launch, key);
    PlannedIs(launch, key);
    hide LineSupported, Planned, JoinWords, Readable;
    KeyNoCR(key);
  }

  lemma KeyNoCR(key: string)
    requires Managed(key)
    ensures NoCR(key)
  {
  }

  lemma {:induction false} RewrittenGood(lines: seq<string>, launch: Launch, seen: set<string>)
    requires Sound(launch) && NoCR(SchedOf(launch)) && forall l <- lines :: Good(l)
    ensures forall l <- Rewritten(lines, launch, seen) :: Good(l)
  {
    PlannedGood(launch, SCHEDULER_KEY);
    PlannedGood(launch, FLAGS_KEY);
    hide Good, Planned, Sound, ManagedKey, NoCR, SCHEDULER_KEY, FLAGS_KEY;
    if lines != [] {
      var k := ManagedKey(lines[0]);
      ManagedIs(lines[0]);
      OnlyTwo(k);
      assert Good(lines[0]);
      RewrittenGood(lines[1..], launch, if k.None? then seen else seen + {k.value});
      RewrittenGood(lines[1..], launch, seen);
    }
  }

  /** A file that could be read can still be read after a rewrite. */
  lemma StaysSupported(content: string, launch: Launch)
    requires Supported(content) && Sound(launch) && NoCR(SchedOf(launch))
    ensures Supported(Rendered(content, launch))
  {
    var lines := Lines(content);
    if content != [] {
      NoBareCR([], content);
      LinesAreLines([], content);
    }
    hide LineSupported, Sound, Rewritten, Readable, SchedOf;
    assert forall l <- lines :: Good(l);
    RewrittenGood(lines, launch, {});
    SoundReads(launch);
    RewrittenOneLine(lines, launch, {});
    var out := Rewritten(lines, launch, {});
    LinesOfText(out);
    NoCRStrip(out);
    TextNoCR(out);
    NothingToRemove(Text(out));
  }

  lemma SoundReads(launch: Launch)
    requires Sound(launch)
    ensures Readable(launch)
  {
  }

  lemma NoCRStrip(lines: seq<string>)
    requires forall l <- lines :: NoCR(l)
    ensures StripAll(lines) == lines
  {
    StripAllSame(lines);
  }

  // ----- a path with a carriage return in it -----

  /** A carriage return with something else than a line feed behind it. */
  ghost predicate InnerCR(s: string) {
    exists i :: 0 <= i < |s| - 1 && s[i] == '\r' && s[i + 1] != '\n'
  }

  lemma {:induction false} InnerCRStays(s: string, rest: string)
    requires InnerCR(s)
    ensures '\r' in WithoutCRLF(s + rest)
    decreases |s|
  {
    var i :| 0 <= i < |s| - 1 && s[i] == '\r' && s[i + 1] != '\n';
    var t := s + rest;
    assert t[0] == s[0] && t[1] == s[1] && t[1..] == s[1..] + rest && t[2..] == s[2..] + rest;
    if i == 0 {
      assert WithoutCRLF(t)[0] == '\r';
    } else {
      assert s[1..][i - 1] == s[i] && s[1..][i] == s[i + 1];
      if s[0] == '\r' && s[1] == '\n' {
        assert i >= 2;
        assert s[2..][i - 2] == s[i] && s[2..][i - 1] == s[i + 1];
        InnerCRStays(s[2..], rest);
      } else {
        InnerCRStays(s[1..], rest);
      }
    }
  }

  lemma InnerCRPrefix(line: string, rest: string)
    requires InnerCR(line) && OneLine(line)
    ensures InnerCR(line + "\n" + rest)
  {
    var i :| 0 <= i < |line| - 1 && line[i] == '\r' && line[i + 1] != '\n';
    var t := line + "\n" + rest;
    assert t[i] == line[i] && t[i + 1] == line[i + 1];
  }

  lemma InnerCRSuffix(front: string, s: string)
    requires InnerCR(s)
    ensures InnerCR(front + s)
  {
    var i :| 0 <= i < |s| - 1 && s[i] == '\r' && s[i + 1] != '\n';
    var t := front + s;
    assert t[|front| + i] == s[i] && t[|front| + i + 1] == s[i + 1];
  }

  lemma {:induction false} InnerCRText(lines: seq<string>, line: string)
    requires line in lines && InnerCR(line) && OneLine(line)
    ensures InnerCR(Text(lines))
  {
    if lines[0] == line {
      InnerCRPrefix(line, Text(lines[1..]));
    } else {
      InnerCRText(lines[1..], line);
      InnerCRSuffix(lines[0] + "\n", Text(lines[1..]));
    }
  }

  lemma {:induction false} PlannedIsThere(lines: seq<string>, launch: Launch, seen: set<string>)
    requires SCHEDULER_KEY !in seen
    ensures Planned(launch, SCHEDULER_KEY) in Rewritten(lines, launch, seen)
  {
    hide Planned, ManagedKey, SCHEDULER_KEY, FLAGS_KEY;
    if lines != [] {
      var k := ManagedKey(lines[0]);
      if k.Some? && k.value != SCHEDULER_KEY {
        PlannedIsThere(lines[1..], launch, seen + {k.value});
      }
      PlannedIsThere(lines[1..], launch, seen);
    }
  }

  /** A carriage return inside the path makes the file one that is refused. */
  lemma CRIsRefused(content: string, sched: string, flags: seq<string>)
    requires InnerCR(sched) && OneLine(sched)
    ensures !Supported(Rendered(content, Set(sched, flags)))
  {
    var launch := Set(sched, flags);
    var lines := Rewritten(Lines(content), launch, {});
    PlannedIsThere(Lines(content), launch, {});
    PlannedIs(launch, SCHEDULER_KEY);
    var line := SCHEDULER_KEY + "=" + sched;
    assert Planned(launch, SCHEDULER_KEY) == line;
    InnerCRSuffix(SCHEDULER_KEY + "=", sched);
    KeysAreKeys(SCHEDULER_KEY);
    OneLineConcat(SCHEDULER_KEY, sched);
    InnerCRText(lines, line);
    InnerCRStays(Text(lines), []);
    assert Text(lines) + [] == Text(lines);
  }

  // ----- a path with a line feed in it -----

  /** The characters of b are among those of a. */
  ghost predicate From(b: string, a: string) { forall c <- b :: c in a }

  lemma {:induction false} TrimFrom(s: string)
    ensures From(TrimStart(s), s) && From(TrimEnd(s), s)
  {
    if s != [] {
      TrimFrom(s[1..]);
      TrimFrom(s[..|s| - 1]);
    }
  }

  lemma {:induction false} SplitFrom(s: string)
    ensures SplitOnce(s, '=').Some? ==> From(SplitOnce(s, '=').value.1, s)
  {
    if s != [] {
      SplitFrom(s[1..]);
    }
  }

  lemma ValueFrom(line: string)
    requires ParseLine(line).Some? && OneLine(line)
    ensures OneLine(ParseLine(line).value.1)
  {
    TrimFrom(line);
    TrimFrom(TrimStart(line));
    var t := Trim(line);
    SplitFrom(t);
    var v := SplitOnce(t, '=').value.1;
    TrimFrom(v);
    TrimFrom(TrimStart(v));
    assert From(Unquote(v), Trim(v));
  }

  lemma {:induction false} ValuesOneLine(lines: seq<string>, key: string)
    requires AllOneLine(lines)
    ensures forall v <- Values(ParseLines(lines), key) :: OneLine(v)
  {
    if lines != [] {
      ValuesOneLine(lines[1..], key);
      assert [lines[0]] + lines[1..] == lines;
      ParseStep(lines[0], lines[1..]);
      if ParseLine(lines[0]).Some? {
        ValueFrom(lines[0]);
        PairStep(ParseLine(lines[0]).value, ParseLines(lines[1..]), key);
      }
      hide ParseLine, ParseLines, OneLine;
    }
  }

  lemma ReadValuesOneLine(content: string, key: string)
    ensures forall v <- Values(Parse(content), key) :: OneLine(v)
  {
    if content != [] {
      LinesAreLines([], content);
    }
    ValuesOneLine(Lines(content), key);
  }

  lemma {:induction false} TrimEndKeepsFirst(s: string)
    requires s != [] && !White(s[0])
    ensures TrimEnd(s) != [] && TrimEnd(s)[0] == s[0]
  {
    if White(s[|s| - 1]) {
      TrimEndKeepsFirst(s[..|s| - 1]);
    }
  }

  lemma KeyIsRead(key: string, value: string)
    requires Managed(key)
    ensures ParseLine(key + "=" + value).Some? && ParseLine(key + "=" + value).value.0 == key
  {
    KeysAreKeys(key);
    hide Managed;
    var s := key + "=" + value;
    assert s[0] == key[0];
    TrimEndKeepsFirst(s);
    SplitAtKey(key, value);
    KeyOfLine(s);
    TightTrim(key);
  }

  lemma {:induction false} LinesAfter(xs: seq<string>, rest: string)
    requires AllOneLine(xs)
    ensures Lines(Text(xs) + rest) == StripAll(xs) + Lines(rest)
  {
    if xs == [] {
      assert Text(xs) + rest == rest;
    } else {
      LinesAfter(xs[1..], rest);
      assert Text(xs) + rest == xs[0] + "\n" + (Text(xs[1..]) + rest);
      LineOut([], xs[0], Text(xs[1..]) + rest);
      assert [] + xs[0] == xs[0];
    }
  }

  lemma {:induction false} TextConcat(xs: seq<string>, ys: seq<string>)
    ensures Text(xs + ys) == Text(xs) + Text(ys)
  {
    if xs == [] {
      assert xs + ys == ys;
    } else {
      assert (xs + ys)[0] == xs[0] && (xs + ys)[1..] == xs[1..] + ys;
      TextConcat(xs[1..], ys);
    }
  }

  lemma {:induction false} ValuesAppear(xs: seq<string>, line: string, ys: seq<string>, key: string)
    requires ParseLine(line).Some? && ParseLine(line).value.0 == key
    ensures Values(ParseLines(xs + [line] + ys), key) != []
  {
    hide ParseLine, ParseLines;
    if xs == [] {
      assert xs + [line] + ys == [line] + ys;
      ParseStep(line, ys);
      PairStep(ParseLine(line).value, ParseLines(ys), key);
    } else {
      assert xs + [line] + ys == [xs[0]] + (xs[1..] + [line] + ys);
      ValuesAppear(xs[1..], line, ys, key);
      ParseStep(xs[0], xs[1..] + [line] + ys);
      if ParseLine(xs[0]).Some? {
        PairStep(ParseLine(xs[0]).value, ParseLines(xs[1..] + [line] + ys), key);
      }
    }
  }

  /** Where the line of the scheduler stands among the rewritten ones. */
  lemma {:induction false} PlannedAt(lines: seq<string>, launch: Launch, seen: set<string>)
    returns (xs: seq<string>, ys: seq<string>)
    requires SCHEDULER_KEY !in seen && AllOneLine(lines) && OneLine(Planned(launch, FLAGS_KEY))
    ensures Rewritten(lines, launch, seen) == xs + [Planned(launch, SCHEDULER_KEY)] + ys && AllOneLine(xs)
  {
    hide Planned, ManagedKey, SCHEDULER_KEY, FLAGS_KEY, OneLine;
    if lines == [] {
      xs, ys := [], if FLAGS_KEY in seen then [] else [Planned(launch, FLAGS_KEY)];
    } else {
      var k := ManagedKey(lines[0]);
      ManagedIs(lines[0]);
      OnlyTwo(k);
      if k == Some(SCHEDULER_KEY) {
        xs, ys := [], Rewritten(lines[1..], launch, seen + {SCHEDULER_KEY});
      } else {
        var seen' := if k.Some? then seen + {k.value} else seen;
        assert k.Some? && k.value in seen ==> seen' == seen;
        xs, ys := PlannedAt(lines[1..], launch, seen');
        var mid := [Planned(launch, SCHEDULER_KEY)];
        if k.None? {
          assert [lines[0]] + (xs + mid + ys) == ([lines[0]] + xs) + mid + ys;
          xs := [lines[0]] + xs;
        } else if k.value !in seen {
          var head := [Planned(launch, k.value)];
          assert head + (xs + mid + ys) == (head + xs) + mid + ys;
          xs := head + xs;
        }
      }
    }
  }

  lemma {:induction false} FirstLine(s: string) returns (a: string, b: string)
    requires !OneLine(s)
    ensures s == a + "\n" + b && OneLine(a)
  {
    if s[0] == '\n' {
      a, b := [], s[1..];
    } else {
      a, b := FirstLine(s[1..]);
      a := [s[0]] + a;
    }
  }

  /** A path that breaks the line still assigns something to the key, but never the path. */
  lemma BrokenPath(content: string, sched: string, flags: seq<string>)
    requires !OneLine(sched) && OneLine(JoinWords(flags))
    ensures Values(Parse(Rendered(content, Set(sched, flags))), SCHEDULER_KEY) != []
  {
    var launch := Set(sched, flags);
    var lines := Lines(content);
    if content != [] {
      LinesAreLines([], content);
    }
    FlagsOneLine(launch);
    var xs, ys := PlannedAt(lines, launch, {});
    var a, b := FirstLine(sched);
    BrokenText(xs, launch, a, b, ys);
    var line := SCHEDULER_KEY + "=" + a;
    var rest := b + "\n" + Text(ys);
    KeysAreKeys(SCHEDULER_KEY);
    OneLineConcat(SCHEDULER_KEY, a);
    LinesAfter(xs, line + "\n" + rest);
    LineOut([], line, rest);
    assert line + "\n" + rest != [] && [] + line == line;
    KeyIsRead(SCHEDULER_KEY, a);
    StripIsBlank(line);
    ValuesAppear(StripAll(xs), StripCR(line), Lines(rest), SCHEDULER_KEY);
    assert StripAll(xs) + ([StripCR(line)] + Lines(rest)) == StripAll(xs) + [StripCR(line)] + Lines(rest);
  }

  lemma FlagsOneLine(launch: Launch)
    requires OneLine(FlagsOf(launch))
    ensures OneLine(Planned(launch, FLAGS_KEY))
  {
    hide JoinWords;
    PlannedIs(launch, FLAGS_KEY);
    KeysAreKeys(FLAGS_KEY);
    OneLineConcat(FLAGS_KEY, PlannedValue(launch, FLAGS_KEY));
  }

  lemma BrokenText(xs: seq<string>, launch: Launch, a: string, b: string, ys: seq<string>)
    requires launch.Set? && launch.sched == a + "\n" + b
    ensures Text(xs + [Planned(launch, SCHEDULER_KEY)] + ys) ==
      Text(xs) + ((SCHEDULER_KEY + "=" + a) + "\n" + (b + "\n" + Text(ys)))
  {
    var p := Planned(launch, SCHEDULER_KEY);
    PlannedIs(launch, SCHEDULER_KEY);
    assert p == (SCHEDULER_KEY + "=" + a) + "\n" + b;
    assert xs + [p] + ys == xs + ([p] + ys);
    TextConcat(xs, [p] + ys);
    assert ([p] + ys)[1..] == ys;
    assert Text([p] + ys) == p + "\n" + Text(ys);
    hide Planned, Text;
  }

  // ----- what a line says -----

  lemma {:induction false} TrimsStart(a: string, s: string)
    requires AllWhite(a) && (s != [] ==> !White(s[0]))
    ensures TrimStart(a + s) == s
  {
    if a == [] {
      assert a + s == s;
    } else {
      assert (a + s)[1..] == a[1..] + s;
      TrimsStart(a[1..], s);
    }
  }

  lemma {:induction false} TrimsEnd(s: string, c: string)
    requires AllWhite(c) && (s != [] ==> !White(s[|s| - 1]))
    ensures TrimEnd(s + c) == s
  {
    if c == [] {
      assert s + c == s;
    } else {
      assert (s + c)[..|s + c| - 1] == s + c[..|c| - 1] && (s + c)[|s + c| - 1] == c[|c| - 1];
      TrimsEnd(s, c[..|c| - 1]);
    }
  }

  /** Trimming takes away exactly the blanks around a text. */
  lemma TrimsBlanks(a: string, s: string, c: string)
    requires AllWhite(a) && AllWhite(c) && Tight(s) && s != []
    ensures Trim(a + s + c) == s
  {
    assert a + s + c == a + (s + c) && (s + c)[0] == s[0];
    TrimsStart(a, s + c);
    TrimsEnd(s, c);
  }

  ghost predicate WellNamed(key: string) {
    key != [] && forall c <- key :: 'a' <= c <= 'z' || 'A' <= c <= 'Z' || '0' <= c <= '9' || c == '_'
  }

  /**
   * A line assigns the value behind its first equals sign, without quotes, to the name in front of it, with blanks
   * around either, if that is made of letters, digits and underscores; so a line that begins with # or ; does not.
   */
  lemma LineReads(a: string, key: string, b: string, value: string, c: string)
    requires AllWhite(a) && AllWhite(b) && AllWhite(c) && Tight(key) && Tight(value) && '=' !in key && '=' !in b
    ensures ParseLine(a + key + b + "=" + value + c) == if WellNamed(key) then Some((key, Unquote(value))) else None
  {
    var line := key + b + "=" + value;
    if key == [] {
      NamelessLine(a, b, value, c);
    } else {
      assert line[0] == key[0] && line[|line| - 1] == if value == [] then '=' else value[|value| - 1];
      assert a + key + b + "=" + value + c == a + line + c;
      TrimsBlanks(a, line, c);
      SplitAtKey(key + b, value);
      assert [] + key + b == key + b;
      TrimsBlanks([], key, b);
      assert Comment(line) ==> !WellNamed(key) by { assert key[0] in key; }
      hide Trim, SplitOnce, Unquote;
    }
  }

  lemma NamelessLine(a: string, b: string, value: string, c: string)
    requires AllWhite(a) && AllWhite(b) && AllWhite(c) && Tight(value) && '=' !in b
    ensures ParseLine(a + [] + b + "=" + value + c) == None
  {
    var line := "=" + value;
    assert line[|line| - 1] == if value == [] then '=' else value[|value| - 1];
    assert a + [] + b + "=" + value + c == (a + b) + line + c;
    TrimsBlanks(a + b, line, c);
    assert line == [] + "=" + value;
    SplitAtKey([], value);
    assert Trim([]) == [];
    hide Unquote;
  }

  lemma {:induction false} NoEquals(s: string)
    requires '=' !in s
    ensures SplitOnce(s, '=') == None
  {
    if s != [] {
      NoEquals(s[1..]);
    }
  }

  lemma {:induction false} TrimmedIsPart(s: string)
    ensures forall c <- TrimStart(s) :: c in s
    ensures forall c <- TrimEnd(s) :: c in s
    decreases |s|
  {
    if s != [] {
      TrimmedIsPart(s[1..]);
      TrimmedIsPart(s[..|s| - 1]);
    }
  }

  /** A line without an equals sign assigns nothing. */
  lemma PlainLine(raw: string)
    requires '=' !in raw
    ensures ParseLine(raw) == None
  {
    TrimmedIsPart(raw);
    TrimmedIsPart(TrimStart(raw));
    NoEquals(Trim(raw));
  }

  /** A comment may hold anything, and so may a blank line. */
  lemma CommentSupported(a: string, text: string)
    requires AllWhite(a) && Tight(text) && text != [] && (text[0] == '#' || text[0] == ';')
    ensures LineSupported(a + text) && LineSupported(a)
  {
    assert a + text == a + text + [] && a == a + [];
    TrimsBlanks(a, text, []);
    TrimsStart(a, []);
  }

  /** A line without an equals sign may hold anything but a backslash at its end. */
  lemma PlainSupported(a: string, text: string, c: string)
    requires AllWhite(a) && AllWhite(c) && Tight(text) && text != [] && '=' !in text && !Comment(text)
    ensures LineSupported(a + text + c) <==> text[|text| - 1] != '\\'
  {
    TrimsBlanks(a, text, c);
    NoEquals(text);
  }

  /** Other lines may not end in a backslash, and a value that begins with a quote must end it on the line. */
  lemma LineSupportedExactly(a: string, key: string, b: string, value: string, c: string)
    requires AllWhite(a) && AllWhite(b) && AllWhite(c) && Tight(key) && Tight(value) && '=' !in key && '=' !in b
    requires key != [] && key[0] != '#' && key[0] != ';'
    ensures LineSupported(a + key + b + "=" + value + c) <==>
      || value == []
      || (value[|value| - 1] != '\\'
          && (value[0] == '"' || value[0] == '\'' ==> ClosedFrom(value[1..], value[0], 0)))
  {
    var line := key + b + "=" + value;
    assert line[0] == key[0] && line[|line| - 1] == if value == [] then '=' else value[|value| - 1];
    assert a + key + b + "=" + value + c == a + line + c;
    TrimsBlanks(a, line, c);
    SplitAtKey(key + b, value);
    TightTrim(value);
    if value != [] && (value[0] == '"' || value[0] == '\'') {
      assert value[1..][0..] == value[1..];
      ClosesMeans(value[1..], value[0], 0);
    }
    hide Trim, SplitOnce, ClosedFrom, Closes;
  }

  /** A file without bare carriage returns: each is followed by a line feed. */
  lemma {:induction false} CarriageReturns(s: string)
    ensures '\r' !in WithoutCRLF(s) <==> forall i :: 0 <= i < |s| && s[i] == '\r' ==> i + 1 < |s| && s[i + 1] == '\n'
    decreases |s|
  {
    if s == [] {
    } else if |s| >= 2 && s[0] == '\r' && s[1] == '\n' {
      CarriageReturns(s[2..]);
      assert forall i :: 2 <= i < |s| ==> s[i] == s[2..][i - 2];
    } else {
      CarriageReturns(s[1..]);
      assert forall i :: 1 <= i < |s| ==> s[i] == s[1..][i - 1];
      assert s[0] == '\r' ==> '\r' in WithoutCRLF(s) by {
        if s[0] == '\r' {
          assert WithoutCRLF(s)[0] == '\r';
        }
      }
      assert WithoutCRLF(s) == [s[0]] + WithoutCRLF(s[1..]);
    }
  }
}
