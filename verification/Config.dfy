/** The KEY=VALUE configuration file: reading, the interactive update, and writing back. */
module Config {
  import opened GoStrings
  import opened Wrappers

  type Values = map<string, string>

  const KEYS: seq<string> := ["ANTHROPIC_API_KEY", "OPENAI_API_KEY", "OPENAI_BASE_URL"]
  const CLEAR := "-"

  // ---- lines ----

  function DropCR(line: string): string {
    if line != [] && line[|line| - 1] == '\r' then line[..|line| - 1] else line
  }

  function IndexOf(s: string, c: char): (k: nat)
    ensures k <= |s| && c !in s[..k] && (k < |s| ==> s[k] == c)
  {
    if s == [] || s[0] == c then 0
    else
      var k := IndexOf(s[1..], c);
      assert s[..k + 1] == [s[0]] + s[1..][..k];
      1 + k
  }

  /** bufio.ScanLines: one carriage return dropped at each line end, no line after a final newline. */
  function ScanLines(text: string): seq<string>
    decreases |text|
  {
    if text == [] then []
    else
      var i := IndexOf(text, '\n');
      if i == |text| then [DropCR(text)] else [DropCR(text[..i])] + ScanLines(text[i + 1..])
  }

  function DropAllCR(lines: seq<string>): seq<string>
    decreases |lines|
  {
    if lines == [] then [] else [DropCR(lines[0])] + DropAllCR(lines[1..])
  }

  predicate OneLine(s: string) {
    '\n' !in s
  }

  lemma {:induction false} ScannedLinesAreLines(text: string)
    ensures forall l :: l in ScanLines(text) ==> OneLine(l)
    decreases |text|
  {
    if text != [] {
      var i := IndexOf(text, '\n');
      assert i == |text| ==> text[..i] == text;
      if i < |text| { ScannedLinesAreLines(text[i + 1..]); }
    }
  }

  lemma {:induction false} IndexAt(a: string, c: char, b: string)
    requires c !in a
    ensures IndexOf(a + [c] + b, c) == |a|
  {
    if a != [] {
      assert (a + [c] + b)[1..] == a[1..] + [c] + b;
      IndexAt(a[1..], c, b);
    }
  }

  lemma {:induction false} ScanJoined(lines: seq<string>)
    requires lines != [] && forall l :: l in lines ==> OneLine(l)
    ensures ScanLines(Join(lines, '\n') + "\n") == DropAllCR(lines)
    decreases |lines|
  {
    var text := Join(lines, '\n') + "\n";
    assert OneLine(lines[0]);
    if |lines| == 1 {
      assert text == lines[0] + ['\n'] + [];
      IndexAt(lines[0], '\n', []);
      assert text[..|lines[0]|] == lines[0] && text[|lines[0]| + 1..] == [];
      assert DropAllCR(lines[1..]) == [];
    } else {
      var rest := Join(lines[1..], '\n') + "\n";
      assert text == lines[0] + ['\n'] + rest;
      IndexAt(lines[0], '\n', rest);
      assert text[..|lines[0]|] == lines[0] && text[|lines[0]| + 1..] == rest;
      ScanJoined(lines[1..]);
    }
  }

  // ---- entries ----

  datatype Entry = Entry(key: string, value: string)

  /** Nothing for blank lines, comments and lines without "=". */
  function EntryOf(line: string): Option<Entry> {
    var t := TrimSpace(line);
    if t == [] || t[0] == '#' || '=' !in t then None
    else Some(Entry(TrimSpace(t[..IndexOf(t, '=')]), TrimSpace(t[IndexOf(t, '=') + 1..])))
  }

  function Printed(e: Entry): string {
    e.key + "=" + e.value
  }

  predicate CleanKey(key: string) {
    Trimmed(key) && '=' !in key && OneLine(key) && (key == [] || key[0] != '#')
  }

  predicate CleanValue(value: string) {
    Trimmed(value) && OneLine(value)
  }

  predicate Clean(e: Entry) {
    CleanKey(e.key) && CleanValue(e.value)
  }

  lemma FrontTrimmedKeepsFirst(s: string)
    requires s != [] && !IsSpace(s[0])
    ensures TrimSpace(s) != [] && TrimSpace(s)[0] == s[0]
  {
    assert TrimLeft(s) == s;
    TrimRightKeepsFirst(s);
  }

  lemma {:induction false} TrimRightKeepsFirst(s: string)
    requires s != [] && !IsSpace(s[0])
    ensures TrimRight(s) != [] && TrimRight(s)[0] == s[0]
  {
    if |s| > 1 && IsSpace(s[|s| - 1]) {
      TrimRightKeepsFirst(s[..|s| - 1]);
    }
  }

  /** Entries read from a line can be printed on one and read back. */
  lemma EntriesAreClean(line: string)
    requires OneLine(line) && EntryOf(line).Some?
    ensures Clean(EntryOf(line).value)
  {
    var t := TrimSpace(line);
    var i := IndexOf(t, '=');
    TrimSpaceFacts(line);
    TrimSpaceFacts(t[..i]);
    TrimSpaceFacts(t[i + 1..]);
    if i > 0 {
      FrontTrimmedKeepsFirst(t[..i]);
    }
  }

  lemma PrintedIsTrimmed(e: Entry)
    requires Clean(e)
    ensures Trimmed(Printed(e)) && OneLine(Printed(e)) && DropCR(Printed(e)) == Printed(e)
  {
    var line := Printed(e);
    assert line[0] == if e.key == [] then '=' else e.key[0];
    assert line[|line| - 1] == if e.value == [] then '=' else e.value[|e.value| - 1];
  }

  lemma PrintThenRead(e: Entry)
    requires Clean(e)
    ensures EntryOf(Printed(e)) == Some(e)
  {
    var line := Printed(e);
    PrintedIsTrimmed(e);
    TrimSpaceFacts(line);
    TrimSpaceFacts(e.key);
    TrimSpaceFacts(e.value);
    assert line == e.key + ['='] + e.value;
    IndexAt(e.key, '=', e.value);
    assert line[|e.key|] == '=';
    assert line[..|e.key|] == e.key && line[|e.key| + 1..] == e.value;
    assert line[0] != '#' by { assert line[0] == if e.key == [] then '=' else e.key[0]; }
  }

  /** A carriage return at the end of a line changes nothing about its entry. */
  lemma TrimIgnoresCR(line: string)
    ensures TrimSpace(DropCR(line)) == TrimSpace(line)
  {
    if line != [] && line[|line| - 1] == '\r' {
      TrimLeftOfSpaceEnd(line);
    }
  }

  lemma {:induction false} TrimLeftOfSpaceEnd(s: string)
    requires s != [] && IsSpace(s[|s| - 1])
    ensures TrimSpace(s[..|s| - 1]) == TrimSpace(s)
    decreases |s|
  {
    var front := s[..|s| - 1];
    if front != [] && IsSpace(s[0]) {
      assert front[1..] == s[1..][..|s| - 2];
      TrimLeftOfSpaceEnd(s[1..]);
    } else if front != [] {
      assert TrimLeft(front) == front && TrimLeft(s) == s;
    } else {
      assert s[1..] == [];
    }
  }

  // ---- reading ----

  function Put(e: Option<Entry>, values: Values): Values {
    if e.Some? then values[e.value.key := e.value.value] else values
  }

  function Fold(lines: seq<string>, values: Values): Values
    decreases |lines|
  {
    if lines == [] then values else Fold(lines[1..], Put(EntryOf(lines[0]), values))
  }

  function Lines(file: Option<string>): seq<string> {
    if file.None? then [] else ScanLines(file.value)
  }

  method ReadConfig(file: Option<string>) returns (values: Values, lines: seq<string>)
    ensures lines == Lines(file) && values == Fold(lines, map[])
  {
    lines, values := Lines(file), map[];
    for i := 0 to |lines|
      invariant Fold(lines[i..], values) == Fold(lines, map[])
    {
      assert lines[i..][0] == lines[i] && lines[i..][1..] == lines[i + 1..];
      var e := EntryOf(lines[i]);
      if e.Some? {
        values := values[e.value.key := e.value.value];
      }
    }
  }

  /** line holds an entry for key. */
  predicate Holds(line: string, key: string) {
    EntryOf(line).Some? && EntryOf(line).value.key == key
  }

  predicate Mentions(lines: seq<string>, key: string) {
    exists line :: line in lines && Holds(line, key)
  }

  /** Every entry of the lines agrees with values. */
  predicate Agree(lines: seq<string>, values: Values) {
    forall line :: line in lines ==> AgreesWith(line, values)
  }

  predicate AgreesWith(line: string, values: Values) {
    EntryOf(line).None? || (var e := EntryOf(line).value; e.key in values && values[e.key] == e.value)
  }

  lemma {:induction false} FoldKeys(lines: seq<string>, values: Values, key: string)
    ensures key in Fold(lines, values) <==> key in values || Mentions(lines, key)
    decreases |lines|
  {
    if lines != [] {
      var values' := Put(EntryOf(lines[0]), values);
      FoldKeys(lines[1..], values', key);
      MentionsFirst(lines, key);
    }
  }

  lemma MentionsFirst(lines: seq<string>, key: string)
    requires lines != []
    ensures Mentions(lines, key) <==> Holds(lines[0], key) || Mentions(lines[1..], key)
  {
    assert lines == [lines[0]] + lines[1..];
    if Holds(lines[0], key) { assert lines[0] in lines; }
  }

  lemma {:induction false} FoldAgrees(lines: seq<string>, values: Values, target: Values, key: string)
    requires Agree(lines, target) && (key in values ==> key in target && values[key] == target[key])
    ensures key in Fold(lines, values) ==> key in target && Fold(lines, values)[key] == target[key]
    decreases |lines|
  {
    if lines != [] {
      assert lines == [lines[0]] + lines[1..] && lines[0] in lines;
      var values' := Put(EntryOf(lines[0]), values);
      FoldAgrees(lines[1..], values', target, key);
    }
  }

  /** Lines that agree with values and mention each of its keys read as values. */
  lemma ReadsAs(lines: seq<string>, values: Values)
    requires Agree(lines, values) && forall key :: key in values ==> Mentions(lines, key)
    ensures Fold(lines, map[]) == values
  {
    forall key ensures key in Fold(lines, map[]) <==> key in values {
      FoldKeys(lines, map[], key);
      FoldAgrees(lines, map[], values, key);
    }
    forall key | key in values ensures Fold(lines, map[])[key] == values[key] {
      FoldAgrees(lines, map[], values, key);
    }
  }

  // ---- updating ----

  /** One answer per known key, in order; the input may end early. */
  function Answered(keys: seq<string>, answers: seq<string>, values: Values): Values
    decreases |keys|
  {
    if keys == [] || answers == [] then values
    else
      var input := TrimSpace(answers[0]);
      var values' := if input == CLEAR then values - {keys[0]}
        else if input != "" then values[keys[0] := input] else values;
      Answered(keys[1..], answers[1..], values')
  }

  // ---- writing ----

  /** What becomes of an original line. */
  function Rewrite(line: string, values: Values): seq<string> {
    match EntryOf(line)
    case None => [line]
    case Some(e) =>
      if e.key in values then [Printed(Entry(e.key, values[e.key]))]
      else if e.key in KEYS then []
      else [line]
  }

  function RewriteAll(lines: seq<string>, values: Values): seq<string>
    decreases |lines|
  {
    if lines == [] then [] else Rewrite(lines[0], values) + RewriteAll(lines[1..], values)
  }

  /** Known keys in values that the original lines do not mention. */
  function Appended(keys: seq<string>, lines: seq<string>, values: Values): seq<string>
    decreases |keys|
  {
    if keys == [] then [] else AppendedOne(keys[0], lines, values) + Appended(keys[1..], lines, values)
  }

  function AppendedOne(key: string, lines: seq<string>, values: Values): seq<string> {
    if key in values && !Mentions(lines, key) then [Printed(Entry(key, values[key]))] else []
  }

  function Written(values: Values, lines: seq<string>): seq<string> {
    RewriteAll(lines, values) + Appended(KEYS, lines, values)
  }

  function Content(values: Values, lines: seq<string>): string {
    Join(Written(values, lines), '\n') + "\n"
  }

  ghost predicate TracksWritten(written: set<string>, lines: seq<string>, i: nat, values: Values)
    requires i <= |lines|
  {
    forall key :: key in written <==> Mentions(lines[..i], key) && (key in values || key in KEYS)
  }

  lemma MentionsOneMore(lines: seq<string>, i: nat, key: string)
    requires i < |lines|
    ensures Mentions(lines[..i + 1], key) <==> Mentions(lines[..i], key) || Holds(lines[i], key)
  {
    assert lines[..i + 1] == lines[..i] + [lines[i]];
    if Holds(lines[i], key) { assert lines[i] in lines[..i + 1]; }
  }

  lemma TracksOneMore(written: set<string>, written': set<string>, lines: seq<string>, i: nat, values: Values)
    requires i < |lines| && TracksWritten(written, lines, i, values)
    requires forall key :: key in written' <==>
        key in written || (Holds(lines[i], key) && (key in values || key in KEYS))
    ensures TracksWritten(written', lines, i + 1, values)
  {
    forall key ensures key in written' <==> Mentions(lines[..i + 1], key) && (key in values || key in KEYS) {
      MentionsOneMore(lines, i, key);
    }
  }

  /** The pass over the original lines, noting the keys it has dealt with. */
  method RewriteLines(values: Values, lines: seq<string>) returns (out: seq<string>, written: set<string>)
    ensures out == RewriteAll(lines, values)
    ensures TracksWritten(written, lines, |lines|, values)
  {
    out, written := [], {};
    for i := 0 to |lines|
      invariant out + RewriteAll(lines[i..], values) == RewriteAll(lines, values)
      invariant TracksWritten(written, lines, i, values)
    {
      assert lines[i..][0] == lines[i] && lines[i..][1..] == lines[i + 1..];
      var line, handled := RewriteLine(values, lines[i]);
      TracksOneMore(written, written + handled, lines, i, values);
      out := out + line;
      written := written + handled;
    }
  }

  method RewriteLine(values: Values, line: string) returns (out: seq<string>, handled: set<string>)
    ensures out == Rewrite(line, values)
    ensures forall key :: key in handled <==> Holds(line, key) && (key in values || key in KEYS)
  {
    var e := EntryOf(line);
    if e.None? {
      return [line], {};
    }
    var key := e.value.key;
    if key in values {
      out, handled := [Printed(Entry(key, values[key]))], {key};
    } else if key in KEYS {
      out, handled := [], {key};
    } else {
      out, handled := [line], {};
    }
  }

  lemma WrittenMeansMentioned(written: set<string>, lines: seq<string>, values: Values, key: string)
    requires TracksWritten(written, lines, |lines|, values) && key in KEYS
    ensures key in written <==> Mentions(lines, key)
  {
    assert lines[..|lines|] == lines;
  }

  /** The keys not dealt with yet, in prompt order. */
  method AppendKeys(keys: seq<string>, values: Values, lines: seq<string>, written: set<string>)
    returns (out: seq<string>)
    requires TracksWritten(written, lines, |lines|, values) && forall key :: key in keys ==> key in KEYS
    ensures out == Appended(keys, lines, values)
  {
    out := [];
    for i := 0 to |keys|
      invariant out + Appended(keys[i..], lines, values) == Appended(keys, lines, values)
    {
      var key := keys[i];
      assert keys[i..][0] == key && keys[i..][1..] == keys[i + 1..];
      WrittenMeansMentioned(written, lines, values, key);
      if key !in written {
        if key in values {
          out := out + [Printed(Entry(key, values[key]))];
        }
      }
    }
  }

  method WriteConfig(values: Values, lines: seq<string>) returns (content: string)
    ensures content == Content(values, lines)
  {
    var out, written := RewriteLines(values, lines);
    var more := AppendKeys(KEYS, values, lines, written);
    content := Join(out + more, '\n') + "\n";
  }

  /** configureInteractive: the content written for the given answers. */
  method Configure(file: Option<string>, answers: seq<string>) returns (content: string)
    ensures content == Content(Answered(KEYS, answers, Fold(Lines(file), map[])), Lines(file))
  {
    var values, lines := ReadConfig(file);
    var newValues := values;
    var i := 0;
    while i < |KEYS| && i < |answers|
      invariant i <= |KEYS| && i <= |answers|
      invariant Answered(KEYS[i..], answers[i..], newValues) == Answered(KEYS, answers, values)
    {
      assert KEYS[i..][0] == KEYS[i] && KEYS[i..][1..] == KEYS[i + 1..];
      assert answers[i..][0] == answers[i] && answers[i..][1..] == answers[i + 1..];
      var input := TrimSpace(answers[i]);
      if input == CLEAR {
        newValues := newValues - {KEYS[i]};
      } else if input != "" {
        newValues := newValues[KEYS[i] := input];
      }
      i := i + 1;
    }
    content := WriteConfig(newValues, lines);
  }
}
