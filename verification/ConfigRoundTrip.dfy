/** What configuring does to the file, and to what a later start reads from it. */
module ConfigRoundTrip {
  import opened Config
  import opened GoStrings
  import opened Wrappers

  /** values may stand for lines: printable, and every key on either side known to the other. */
  ghost predicate Covers(values: Values, lines: seq<string>) {
    && (forall l :: l in lines ==> OneLine(l))
    && (forall key :: key in values ==> CleanKey(key) && CleanValue(values[key]))
    && (forall key :: key in values ==> Mentions(lines, key) || key in KEYS)
    && (forall key :: Mentions(lines, key) ==> key in values || key in KEYS)
  }

  lemma KnownKeysAreClean()
    ensures forall key :: key in KEYS ==> CleanKey(key)
  {
  }

  lemma ReadCovers(file: Option<string>)
    ensures Covers(Fold(Lines(file), map[]), Lines(file))
  {
    var lines := Lines(file);
    if file.Some? { ScannedLinesAreLines(file.value); }
    forall key ensures key in Fold(lines, map[]) <==> Mentions(lines, key) {
      FoldKeys(lines, map[], key);
    }
    FoldIsClean(lines, map[]);
  }

  ghost predicate CleanValues(values: Values) {
    forall key :: key in values ==> CleanKey(key) && CleanValue(values[key])
  }

  lemma {:induction false} FoldIsClean(lines: seq<string>, values: Values)
    requires CleanValues(values) && forall l :: l in lines ==> OneLine(l)
    ensures CleanValues(Fold(lines, values))
    decreases |lines|
  {
    if lines != [] {
      assert lines[0] in lines;
      if EntryOf(lines[0]).Some? {
        EntriesAreClean(lines[0]);
        FoldIsClean(lines[1..], values[EntryOf(lines[0]).value.key := EntryOf(lines[0]).value.value]);
      } else {
        FoldIsClean(lines[1..], values);
      }
    }
  }

  lemma {:induction false} AnsweredCovers(keys: seq<string>, answers: seq<string>, values: Values, lines: seq<string>)
    requires Covers(values, lines) && (forall a :: a in answers ==> OneLine(a))
    requires forall key :: key in keys ==> key in KEYS
    ensures Covers(Answered(keys, answers, values), lines)
    decreases |keys|
  {
    if keys != [] && answers != [] {
      KnownKeysAreClean();
      assert keys[0] in keys && answers[0] in answers;
      TrimSpaceFacts(answers[0]);
      var input := TrimSpace(answers[0]);
      var values' := if input == CLEAR then values - {keys[0]}
        else if input != "" then values[keys[0] := input] else values;
      AnsweredCovers(keys[1..], answers[1..], values', lines);
    }
  }

  // ---- the written lines ----

  /** Line by line, and unharmed by the next reading's carriage-return trimming. */
  ghost predicate Sound(out: seq<string>, values: Values) {
    forall l :: l in out ==> OneLine(l) && AgreesWith(l, values)
  }

  lemma PrintedAgrees(key: string, values: Values)
    requires CleanKey(key) && key in values && CleanValue(values[key])
    ensures var l := Printed(Entry(key, values[key])); OneLine(l) && AgreesWith(l, values) && Holds(l, key)
  {
    PrintThenRead(Entry(key, values[key]));
  }

  lemma RewriteSound(line: string, values: Values, lines: seq<string>)
    requires Covers(values, lines) && line in lines
    ensures Sound(Rewrite(line, values), values)
    ensures forall key :: key in values && Holds(line, key) ==> Mentions(Rewrite(line, values), key)
  {
    var e := EntryOf(line);
    if e.Some? {
      assert Holds(line, e.value.key);
      if e.value.key in values {
        PrintedAgrees(e.value.key, values);
      }
    }
  }

  lemma MentionsConcat(a: seq<string>, b: seq<string>, key: string)
    ensures Mentions(a + b, key) <==> Mentions(a, key) || Mentions(b, key)
  {
    if l :| l in a && Holds(l, key) { assert l in a + b; }
    if l :| l in b && Holds(l, key) { assert l in a + b; }
  }

  lemma {:induction false} RewriteAllSound(part: seq<string>, values: Values, lines: seq<string>, key: string)
    requires Covers(values, lines) && forall l :: l in part ==> l in lines
    ensures Sound(RewriteAll(part, values), values)
    ensures key in values && Mentions(part, key) ==> Mentions(RewriteAll(part, values), key)
    decreases |part|
  {
    if part != [] {
      assert part[0] in part;
      RewriteSound(part[0], values, lines);
      RewriteAllSound(part[1..], values, lines, key);
      MentionsFirst(part, key);
      MentionsConcat(Rewrite(part[0], values), RewriteAll(part[1..], values), key);
    }
  }

  lemma {:induction false} AppendedSound(keys: seq<string>, values: Values, lines: seq<string>, key: string)
    requires Covers(values, lines)
    ensures Sound(Appended(keys, lines, values), values)
    ensures key in values && key in keys && !Mentions(lines, key) ==> Mentions(Appended(keys, lines, values), key)
    decreases |keys|
  {
    if keys != [] {
      AppendedSound(keys[1..], values, lines, key);
      MentionsConcat(AppendedOne(keys[0], lines, values), Appended(keys[1..], lines, values), key);
      if keys[0] in values {
        PrintedAgrees(keys[0], values);
      }
    }
  }

  lemma WrittenSound(values: Values, lines: seq<string>)
    requires Covers(values, lines)
    ensures Sound(Written(values, lines), values)
    ensures forall key :: key in values ==> Mentions(Written(values, lines), key)
  {
    RewriteAllSound(lines, values, lines, "");
    AppendedSound(KEYS, values, lines, "");
    forall key | key in values ensures Mentions(Written(values, lines), key) {
      RewriteAllSound(lines, values, lines, key);
      AppendedSound(KEYS, values, lines, key);
      MentionsConcat(RewriteAll(lines, values), Appended(KEYS, lines, values), key);
    }
  }

  lemma {:induction false} DropAllCRKeepsEntries(lines: seq<string>, values: Values, key: string)
    ensures Agree(lines, values) <==> Agree(DropAllCR(lines), values)
    ensures Mentions(lines, key) <==> Mentions(DropAllCR(lines), key)
    decreases |lines|
  {
    if lines != [] {
      var rest := DropAllCR(lines[1..]);
      TrimIgnoresCR(lines[0]);
      assert EntryOf(DropCR(lines[0])) == EntryOf(lines[0]);
      DropAllCRKeepsEntries(lines[1..], values, key);
      MentionsFirst(lines, key);
      MentionsFirst(DropAllCR(lines), key);
      assert DropAllCR(lines)[0] == DropCR(lines[0]) && DropAllCR(lines)[1..] == rest;
      AgreeFirst(lines, values);
      AgreeFirst(DropAllCR(lines), values);
    }
  }

  lemma AgreeFirst(lines: seq<string>, values: Values)
    requires lines != []
    ensures Agree(lines, values) <==> AgreesWith(lines[0], values) && Agree(lines[1..], values)
  {
    assert lines == [lines[0]] + lines[1..];
    assert lines[0] in lines;
  }

  /** The lines the next reading finds: they agree with the values written and mention each of their keys. */
  lemma ReadBack(values: Values, lines: seq<string>)
    requires Covers(values, lines)
    ensures var back := ScanLines(Content(values, lines));
            Agree(back, values) && forall key :: key in values ==> Mentions(back, key)
  {
    var out := Written(values, lines);
    WrittenSound(values, lines);
    if out == [] {
      assert Content(values, lines) == "\n";
      assert ScanLines("\n") == [""] by { assert ScanLines("") == []; }
      assert EntryOf("").None?;
    } else {
      ScanJoined(out);
      DropAllCRKeepsEntries(out, values, "");
      forall key | key in values ensures Mentions(DropAllCR(out), key) {
        DropAllCRKeepsEntries(out, values, key);
      }
    }
  }

  /**
   Configuring and reading back yields exactly the updated values, for any file, duplicate and unknown keys included,
   and any answers.
   */
  lemma ConfigRoundTrip(file: Option<string>, answers: seq<string>)
    requires forall a :: a in answers ==> OneLine(a)
    ensures var updated := Answered(KEYS, answers, Fold(Lines(file), map[]));
            Fold(Lines(Some(Content(updated, Lines(file)))), map[]) == updated
  {
    var lines := Lines(file);
    var updated := Answered(KEYS, answers, Fold(lines, map[]));
    ReadCovers(file);
    AnsweredCovers(KEYS, answers, Fold(lines, map[]), lines);
    ReadBack(updated, lines);
    ReadsAs(ScanLines(Content(updated, lines)), updated);
  }

  /** Unknown keys keep their values; a known key is kept, set or cleared by its own answer. */
  lemma {:induction false} AnsweredIs(keys: seq<string>, answers: seq<string>, values: Values, key: string)
    requires forall i, j :: 0 <= i < j < |keys| ==> keys[i] != keys[j]
    ensures var r := Answered(keys, answers, values);
            && (forall i :: 0 <= i < |keys| && i < |answers| && keys[i] == key ==>
                  var input := TrimSpace(answers[i]);
                  if input == "-" then key !in r
                  else if input != "" then key in r && r[key] == input
                  else Same(values, r, key))
            && ((forall i :: 0 <= i < |keys| && i < |answers| ==> keys[i] != key) ==> Same(values, r, key))
    decreases |keys|
  {
    if keys != [] && answers != [] {
      var input := TrimSpace(answers[0]);
      var values' := if input == CLEAR then values - {keys[0]}
        else if input != "" then values[keys[0] := input] else values;
      AnsweredIs(keys[1..], answers[1..], values', key);
      if keys[0] == key {
        assert forall i :: 0 <= i < |keys[1..]| ==> keys[1..][i] == keys[i + 1] != key;
      } else {
        assert Same(values, values', key);
        assert forall i :: 1 <= i < |keys| && i < |answers| ==>
            keys[i] == keys[1..][i - 1] && answers[i] == answers[1..][i - 1];
        assert forall i :: 0 <= i < |keys[1..]| ==> keys[1..][i] == keys[i + 1];
      }
    }
  }

  /** The answers are for the Anthropic key, the OpenAI key and the OpenAI base URL, in this order. */
  lemma AnswersFor(answers: seq<string>, values: Values, i: nat)
    requires i < 3 && i < |answers|
    ensures var key := ["ANTHROPIC_API_KEY", "OPENAI_API_KEY", "OPENAI_BASE_URL"][i];
            var input, r := TrimSpace(answers[i]), Answered(KEYS, answers, values);
            if input == "-" then key !in r
            else if input != "" then key in r && r[key] == input
            else Same(values, r, key)
  {
    DistinctKeys();
    AnsweredIs(KEYS, answers, values, KEYS[i]);
  }

  lemma DistinctKeys()
    ensures forall i, j :: 0 <= i < j < |KEYS| ==> KEYS[i] != KEYS[j]
  {
    assert KEYS[0][0] != KEYS[1][0] && |KEYS[1]| != |KEYS[2]| && KEYS[0][0] != KEYS[2][0];
  }

  ghost predicate Same(a: Values, b: Values, key: string) {
    (key in a <==> key in b) && (key in a ==> a[key] == b[key])
  }

  // ---- comments and other lines without an entry ----

  function PassiveOf(line: string): seq<string> {
    if EntryOf(line).None? then [line] else []
  }

  function Passive(lines: seq<string>): seq<string>
    decreases |lines|
  {
    if lines == [] then [] else PassiveOf(lines[0]) + Passive(lines[1..])
  }

  lemma {:induction false} PassiveConcat(a: seq<string>, b: seq<string>)
    ensures Passive(a + b) == Passive(a) + Passive(b)
    decreases |a|
  {
    if a == [] {
      assert a + b == b;
    } else {
      assert (a + b)[0] == a[0] && (a + b)[1..] == a[1..] + b;
      PassiveConcat(a[1..], b);
      Associate(PassiveOf(a[0]), Passive(a[1..]), Passive(b));
    }
  }

  lemma Associate(x: seq<string>, y: seq<string>, z: seq<string>)
    ensures x + (y + z) == (x + y) + z
  {
  }

  lemma PassiveOne(line: string)
    ensures Passive([line]) == PassiveOf(line)
  {
    assert Passive([line][1..]) == [];
  }

  lemma {:induction false} RewriteKeepsPassive(part: seq<string>, values: Values)
    requires CleanValues(values)
    ensures Passive(RewriteAll(part, values)) == Passive(part)
    decreases |part|
  {
    if part != [] {
      var line := part[0];
      RewriteKeepsPassive(part[1..], values);
      PassiveConcat(Rewrite(line, values), RewriteAll(part[1..], values));
      PassiveOne(line);
      if EntryOf(line).Some? && EntryOf(line).value.key in values {
        var key := EntryOf(line).value.key;
        PrintThenRead(Entry(key, values[key]));
        PassiveOne(Printed(Entry(key, values[key])));
      }
    }
  }

  lemma {:induction false} AppendedHasNoPassive(keys: seq<string>, lines: seq<string>, values: Values)
    requires CleanValues(values)
    ensures Passive(Appended(keys, lines, values)) == []
    decreases |keys|
  {
    if keys != [] {
      AppendedHasNoPassive(keys[1..], lines, values);
      var first := AppendedOne(keys[0], lines, values);
      PassiveConcat(first, Appended(keys[1..], lines, values));
      if first != [] {
        PrintThenRead(Entry(keys[0], values[keys[0]]));
        PassiveOne(first[0]);
      }
    }
  }

  lemma PassiveOfDropCR(line: string)
    ensures PassiveOf(DropCR(line)) == DropAllCR(PassiveOf(line))
  {
    TrimIgnoresCR(line);
    assert DropAllCR([line][1..]) == [];
  }

  lemma {:induction false} DropAllCRConcat(a: seq<string>, b: seq<string>)
    ensures DropAllCR(a + b) == DropAllCR(a) + DropAllCR(b)
    decreases |a|
  {
    if a == [] {
      assert a + b == b;
    } else {
      assert (a + b)[0] == a[0] && (a + b)[1..] == a[1..] + b;
      DropAllCRConcat(a[1..], b);
    }
  }

  lemma {:induction false} PassiveDropsCR(lines: seq<string>)
    ensures Passive(DropAllCR(lines)) == DropAllCR(Passive(lines))
    decreases |lines|
  {
    if lines != [] {
      PassiveDropsCR(lines[1..]);
      PassiveOfDropCR(lines[0]);
      assert DropAllCR(lines)[0] == DropCR(lines[0]) && DropAllCR(lines)[1..] == DropAllCR(lines[1..]);
      DropAllCRConcat(PassiveOf(lines[0]), Passive(lines[1..]));
    }
  }

  lemma WrittenKeepsPassive(values: Values, lines: seq<string>)
    requires Covers(values, lines)
    ensures Passive(Written(values, lines)) == Passive(lines)
  {
    RewriteKeepsPassive(lines, values);
    AppendedHasNoPassive(KEYS, lines, values);
    PassiveConcat(RewriteAll(lines, values), Appended(KEYS, lines, values));
  }

  lemma EmptyContent()
    ensures ScanLines(Join([], '\n') + "\n") == [""] && Passive([""]) == [""]
  {
    assert Join([], '\n') + "\n" == "\n";
    assert ScanLines("") == [];
    PassiveOne("");
  }

  /**
   Comments, blank lines and lines without "=" all survive in order, each up to one carriage return at its end; a file
   that would become empty gets one blank line instead.
   */
  lemma PassiveLinesSurvive(file: Option<string>, answers: seq<string>)
    requires forall a :: a in answers ==> OneLine(a)
    ensures var lines := Lines(file);
            var updated := Answered(KEYS, answers, Fold(lines, map[]));
            Passive(Lines(Some(Content(updated, lines)))) ==
              if Written(updated, lines) == [] then [""] else DropAllCR(Passive(lines))
  {
    var lines := Lines(file);
    var updated := Answered(KEYS, answers, Fold(lines, map[]));
    var out := Written(updated, lines);
    ReadCovers(file);
    AnsweredCovers(KEYS, answers, Fold(lines, map[]), lines);
    WrittenKeepsPassive(updated, lines);
    if out == [] {
      EmptyContent();
    } else {
      WrittenSound(updated, lines);
      ScanJoined(out);
      PassiveDropsCR(out);
    }
  }

  // ---- start-up: the file as a source of environment variables ----

  function Get(env: Values, key: string): string {
    if key in env then env[key] else ""
  }

  /** loadConfig: a known key is set only while the variable is still empty. */
  function Load(lines: seq<string>, env: Values): Values
    decreases |lines|
  {
    if lines == [] then env
    else
      match EntryOf(lines[0])
      case None => Load(lines[1..], env)
      case Some(e) =>
        Load(lines[1..], if e.key in KEYS && Get(env, e.key) == "" then env[e.key := e.value] else env)
  }

  method LoadConfig(file: Option<string>, environment: Values) returns (env: Values)
    ensures env == Load(Lines(file), environment)
  {
    env := environment;
    var lines := Lines(file);
    for i := 0 to |lines|
      invariant Load(lines[i..], env) == Load(lines, environment)
    {
      assert lines[i..][0] == lines[i] && lines[i..][1..] == lines[i + 1..];
      var e := EntryOf(lines[i]);
      if e.Some? && e.value.key in KEYS {
        if Get(env, e.value.key) == "" {
          env := env[e.value.key := e.value.value];
        }
      }
    }
  }

  /** The first nonempty value the lines give a key. */
  function FirstNonEmpty(lines: seq<string>, key: string): string
    decreases |lines|
  {
    if lines == [] then ""
    else if Holds(lines[0], key) && EntryOf(lines[0]).value.value != "" then EntryOf(lines[0]).value.value
    else FirstNonEmpty(lines[1..], key)
  }

  /** A variable already set wins; otherwise a known key gets its first nonempty value. */
  lemma {:induction false} LoadIs(lines: seq<string>, env: Values, key: string)
    ensures Get(Load(lines, env), key) ==
        if key !in KEYS || Get(env, key) != "" then Get(env, key) else FirstNonEmpty(lines, key)
    decreases |lines|
  {
    if lines != [] {
      var env' := if EntryOf(lines[0]).Some? && EntryOf(lines[0]).value.key in KEYS
            && Get(env, EntryOf(lines[0]).value.key) == ""
        then env[EntryOf(lines[0]).value.key := EntryOf(lines[0]).value.value] else env;
      LoadIs(lines[1..], env', key);
    }
  }

  lemma {:induction false} FirstOfAgreeing(lines: seq<string>, values: Values, key: string)
    requires Agree(lines, values)
    ensures FirstNonEmpty(lines, key) == if Mentions(lines, key) then Get(values, key) else ""
    ensures Mentions(lines, key) ==> key in values
    decreases |lines|
  {
    if lines != [] {
      AgreeFirst(lines, values);
      MentionsFirst(lines, key);
      FirstOfAgreeing(lines[1..], values, key);
    }
  }

  /** After configuring, a start with the variable unset sees exactly the value configured. */
  lemma StartSeesConfigured(file: Option<string>, answers: seq<string>, env: Values, key: string)
    requires key in KEYS && Get(env, key) == "" && forall a :: a in answers ==> OneLine(a)
    ensures var updated := Answered(KEYS, answers, Fold(Lines(file), map[]));
            Get(Load(Lines(Some(Content(updated, Lines(file)))), env), key) == Get(updated, key)
  {
    var lines := Lines(file);
    var updated := Answered(KEYS, answers, Fold(lines, map[]));
    ReadCovers(file);
    AnsweredCovers(KEYS, answers, Fold(lines, map[]), lines);
    ReadBack(updated, lines);
    var back := Lines(Some(Content(updated, lines)));
    LoadIs(back, env, key);
    FirstOfAgreeing(back, updated, key);
  }

  /**
   Configuring without giving any answer leaves what a start sees as it was exactly when the first nonempty value of the
   key is also its last: a start takes the first, configuring the last.
   */
  lemma KeepingKeepsIff(file: Option<string>, env: Values, key: string)
    requires key in KEYS && Get(env, key) == ""
    ensures var lines := Lines(file);
            var values := Fold(lines, map[]);
            Get(Load(Lines(Some(Content(values, lines))), env), key) == Get(Load(lines, env), key)
            <==> FirstNonEmpty(lines, key) == Get(values, key)
  {
    StartSeesConfigured(file, [], env, key);
    LoadIs(Lines(file), env, key);
    assert Answered(KEYS, [], Fold(Lines(file), map[])) == Fold(Lines(file), map[]);
  }

  /** A key given twice: a start uses the first value, configuring keeps the second. */
  lemma DuplicateKeyDiffers(key: string, a: string, b: string)
    requires CleanKey(key) && CleanValue(a) && CleanValue(b) && a != "" && b != a
    ensures var lines := [Printed(Entry(key, a)), Printed(Entry(key, b))];
            FirstNonEmpty(lines, key) == a && Get(Fold(lines, map[]), key) == b
  {
    PrintThenRead(Entry(key, a));
    PrintThenRead(Entry(key, b));
    var lines := [Printed(Entry(key, a)), Printed(Entry(key, b))];
    assert lines[1..] == [Printed(Entry(key, b))] && lines[1..][1..] == [];
    assert Fold(lines, map[]) == Fold(lines[1..], map[key := a]) == Fold([], map[key := a][key := b]);
  }
}
