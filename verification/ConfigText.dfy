/** The configuration file letter by letter and line by line: how an entry is written, and what is rewritten where. */
module ConfigText {
  import opened Config
  import opened ConfigRoundTrip
  import opened GoStrings
  import opened Wrappers

  // ---- one line ----

  /** key = value, with spaces anywhere around the two. */
  ghost predicate EntryWith(line: string, e: Entry) {
    exists a, b, c, d :: EntryAt(line, e, a, b, c, d)
  }

  ghost predicate EntryAt(line: string, e: Entry, a: string, b: string, c: string, d: string) {
    && Blank(a) && Blank(b) && Blank(c) && Blank(d)
    && line == a + (e.key + b + "=" + (c + e.value)) + d
  }

  lemma {:induction false} FirstEquals(x: string, y: string)
    requires '=' !in x
    ensures IndexOf(x + "=" + y, '=') == |x|
  {
    assert x + "=" + y == x + ['='] + y;
    IndexAt(x, '=', y);
  }

  /** The line trimmed: spaces next to an empty key or value go too. */
  function Core(e: Entry, b: string, c: string): string {
    (if e.key == "" then "" else e.key + b) + "=" + (if e.value == "" then "" else c + e.value)
  }

  lemma CoreIsTrimmed(line: string, e: Entry, a: string, b: string, c: string, d: string)
    requires Clean(e) && EntryAt(line, e, a, b, c, d)
    ensures TrimSpace(line) == Core(e, b, c)
  {
    var core := Core(e, b, c);
    var front := if e.key == "" then a + b else a;
    var back := if e.value == "" then c + d else d;
    assert core[0] == if e.key == "" then '=' else e.key[0];
    assert core[|core| - 1] == if e.value == "" then '=' else e.value[|e.value| - 1];
    assert line == front + core + back;
    TrimSpaceOf(front, core, back);
  }

  lemma EntryReads(line: string, e: Entry)
    requires Clean(e) && EntryWith(line, e)
    ensures EntryOf(line) == Some(e)
  {
    var a, b, c, d :| EntryAt(line, e, a, b, c, d);
    var x, y := if e.key == "" then "" else e.key + b, if e.value == "" then "" else c + e.value;
    var t := Core(e, b, c);
    CoreIsTrimmed(line, e, a, b, c, d);
    FirstEquals(x, y);
    assert t[|x|] == '=' && t[..|x|] == x && t[|x| + 1..] == y;
    assert "" + e.key + b == e.key + b && c + e.value + "" == c + e.value;
    TrimSpaceOf("", e.key, b);
    TrimSpaceOf(c, e.value, "");
    assert TrimSpace(x) == e.key && TrimSpace(y) == e.value by {
      TrimSpaceOf("", "", "");
      assert "" + "" + "" == "";
    }
  }

  lemma EntryFound(line: string)
    requires EntryOf(line).Some?
    ensures EntryWith(line, EntryOf(line).value)
  {
    var t := TrimSpace(line);
    var i := IndexOf(t, '=');
    var e := EntryOf(line).value;
    var a, d := TrimSpaceIs(line);
    var a', b := TrimSpaceIs(t[..i]);
    var c, d' := TrimSpaceIs(t[i + 1..]);
    assert t == t[..i] + "=" + t[i + 1..];
    Around(line, e, a, a', b, c, d', d);
    assert EntryAt(line, e, a + a', b, c, d' + d);
  }

  lemma Around(line: string, e: Entry, a: string, a': string, b: string, c: string, d': string, d: string)
    requires line == a + (a' + e.key + b + "=" + (c + e.value + d')) + d
    ensures line == (a + a') + (e.key + b + "=" + (c + e.value)) + (d' + d)
  {
  }

  /** A line is an entry exactly when it is written as one; keys hold no "=" and do not open a comment. */
  lemma EntryIff(line: string, e: Entry)
    requires OneLine(line)
    ensures EntryOf(line) == Some(e) <==> Clean(e) && EntryWith(line, e)
  {
    if EntryOf(line).Some? {
      EntriesAreClean(line);
      EntryFound(line);
    }
    if Clean(e) && EntryWith(line, e) {
      EntryReads(line, e);
    }
  }

  // ---- line ends ----

  /** Reading drops the newline of every line and at most one carriage return before it. */
  lemma {:induction false} DroppedAt(lines: seq<string>, k: nat)
    requires k < |lines|
    ensures |DropAllCR(lines)| == |lines|
    ensures lines[k] == DropAllCR(lines)[k] + "\r"
            || (lines[k] == DropAllCR(lines)[k] && (lines[k] == "" || lines[k][|lines[k]| - 1] != '\r'))
    decreases |lines|
  {
    if k > 0 {
      DroppedAt(lines[1..], k - 1);
    } else if |lines| > 1 {
      DroppedAt(lines[1..], 0);
    }
  }

  // ---- the whole file ----

  /** What one line says. */
  datatype Item = Remark(line: string) | Setting(entry: Entry)

  function ItemOf(line: string): Item {
    if EntryOf(line).Some? then Setting(EntryOf(line).value) else Remark(line)
  }

  function Items(lines: seq<string>): seq<Item> {
    seq(|lines|, i requires 0 <= i < |lines| => ItemOf(lines[i]))
  }

  /** In place: remarks stay, every setting takes the key's present value, settings of cleared keys go. */
  function Updated(items: seq<Item>, values: Values): seq<Item> {
    if items == [] then []
    else (match items[0]
          case Remark(_) => [items[0]]
          case Setting(e) => if e.key in values then [Setting(Entry(e.key, values[e.key]))] else [])
         + Updated(items[1..], values)
  }

  /** At the end, in prompt order: the known keys that have a value and no line. */
  ghost function Added(keys: seq<string>, items: seq<Item>, values: Values): seq<Item> {
    if keys == [] then []
    else AddedOne(keys[0], items, values) + Added(keys[1..], items, values)
  }

  ghost function AddedOne(key: string, items: seq<Item>, values: Values): seq<Item> {
    if key in values && !exists e :: Setting(e) in items && e.key == key then [Setting(Entry(key, values[key]))]
    else []
  }

  lemma ItemsConcat(a: seq<string>, b: seq<string>)
    ensures Items(a + b) == Items(a) + Items(b)
  {
  }

  lemma {:induction false} RewrittenItems(part: seq<string>, values: Values, lines: seq<string>)
    requires Covers(values, lines) && forall l :: l in part ==> l in lines
    ensures Items(RewriteAll(part, values)) == Updated(Items(part), values)
    decreases |part|
  {
    if part != [] {
      var line := part[0];
      assert line in part;
      RewrittenItems(part[1..], values, lines);
      ItemsConcat(Rewrite(line, values), RewriteAll(part[1..], values));
      assert Items(part)[1..] == Items(part[1..]);
      RewrittenItem(line, values, lines);
    }
  }

  lemma RewrittenItem(line: string, values: Values, lines: seq<string>)
    requires Covers(values, lines) && line in lines
    ensures Items(Rewrite(line, values)) ==
        match ItemOf(line)
        case Remark(_) => [ItemOf(line)]
        case Setting(e) => if e.key in values then [Setting(Entry(e.key, values[e.key]))] else []
  {
    var e := EntryOf(line);
    if e.Some? {
      assert Holds(line, e.value.key);
      if e.value.key in values {
        PrintThenRead(Entry(e.value.key, values[e.value.key]));
      }
    }
  }

  lemma MentionedIff(lines: seq<string>, key: string)
    ensures Mentions(lines, key) <==> exists e :: Setting(e) in Items(lines) && e.key == key
  {
    if Mentions(lines, key) {
      var line :| line in lines && Holds(line, key);
      var i :| 0 <= i < |lines| && lines[i] == line;
      assert Items(lines)[i] == Setting(EntryOf(line).value);
    }
    if e :| Setting(e) in Items(lines) && e.key == key {
      var i :| 0 <= i < |lines| && Items(lines)[i] == Setting(e);
      assert lines[i] in lines && Holds(lines[i], key);
    }
  }

  lemma {:induction false} AppendedItems(keys: seq<string>, lines: seq<string>, values: Values)
    requires CleanValues(values)
    ensures Items(Appended(keys, lines, values)) == Added(keys, Items(lines), values)
    decreases |keys|
  {
    if keys != [] {
      AppendedItems(keys[1..], lines, values);
      ItemsConcat(AppendedOne(keys[0], lines, values), Appended(keys[1..], lines, values));
      AppendedItem(keys[0], lines, values);
    }
  }

  lemma AppendedItem(key: string, lines: seq<string>, values: Values)
    requires CleanValues(values)
    ensures Items(AppendedOne(key, lines, values)) == AddedOne(key, Items(lines), values)
  {
    MentionedIff(lines, key);
    if key in values {
      PrintThenRead(Entry(key, values[key]));
    }
  }

  /** Configuring rewrites the file line by line in place and appends what is new. */
  lemma WrittenItems(file: Option<string>, answers: seq<string>)
    requires forall a :: a in answers ==> OneLine(a)
    ensures var lines := Lines(file);
            var updated := Answered(KEYS, answers, Fold(lines, map[]));
            Items(Written(updated, lines)) == Updated(Items(lines), updated) + Added(KEYS, Items(lines), updated)
  {
    var lines := Lines(file);
    var updated := Answered(KEYS, answers, Fold(lines, map[]));
    ReadCovers(file);
    AnsweredCovers(KEYS, answers, Fold(lines, map[]), lines);
    RewrittenItems(lines, updated, lines);
    AppendedItems(KEYS, lines, updated);
    ItemsConcat(RewriteAll(lines, updated), Appended(KEYS, lines, updated));
  }
}
