/** Markdown sections of a specification: headings outside fenced blocks and the line ranges below them. */
module SpecParser {
  import opened GoStrings
  import opened Wrappers

  /** line counts from 0. */
  datatype Heading = Heading(level: nat, text: string, line: nat)

  datatype Section = Section(heading: string, level: nat, content: string)

  datatype Spec = Spec(title: string, description: string, sections: seq<Section>)

  // ---- one line ----

  function Hashes(s: string): (n: nat)
    ensures n <= |s| && (forall i :: 0 <= i < n ==> s[i] == '#') && (n < |s| ==> s[n] != '#')
  {
    if s == [] || s[0] != '#' then 0 else 1 + Hashes(s[1..])
  }

  /** One to six hashes, a space and some text. */
  function HeadingOf(line: string): Option<(nat, string)> {
    var t := TrimSpace(line);
    var n := Hashes(t);
    if 1 <= n <= 6 && n < |t| && t[n] == ' ' && TrimSpace(t[n..]) != "" then Some((n, TrimSpace(t[n..]))) else None
  }

  method ParseHeading(line: string) returns (r: Option<(nat, string)>)
    ensures r == HeadingOf(line)
  {
    var trimmed := TrimSpace(line);
    if !("#" <= trimmed) {
      return None;
    }
    var level := 0;
    while level < |trimmed| && trimmed[level] == '#'
      invariant level <= Hashes(trimmed)
    {
      level := level + 1;
    }
    if level > 6 {
      return None;
    }
    if level == |trimmed| || trimmed[level] != ' ' {
      return None;
    }
    var text := TrimSpace(trimmed[level..]);
    r := if text == "" then None else Some((level, text));
  }

  predicate FenceLine(line: string) {
    "```" <= TrimSpace(line) || "~~~" <= TrimSpace(line)
  }

  /** Whether the line ends inside a fenced block: an odd number of fence lines up to and including it. */
  predicate FencedAfter(lines: seq<string>, n: nat)
    requires n <= |lines|
  {
    n > 0 && FencedAfter(lines, n - 1) != FenceLine(lines[n - 1])
  }

  predicate IsHeading(lines: seq<string>, i: nat)
    requires i < |lines|
  {
    !FencedAfter(lines, i + 1) && HeadingOf(lines[i]).Some?
  }

  function HeadingAt(lines: seq<string>, i: nat): Heading
    requires i < |lines| && IsHeading(lines, i)
  {
    Heading(HeadingOf(lines[i]).value.0, HeadingOf(lines[i]).value.1, i)
  }

  /** The headings among the first n lines, in order. */
  function Headings(lines: seq<string>, n: nat): seq<Heading>
    requires n <= |lines|
  {
    if n == 0 then []
    else Headings(lines, n - 1) + (if IsHeading(lines, n - 1) then [HeadingAt(lines, n - 1)] else [])
  }

  ghost predicate Lists(lines: seq<string>, n: nat, h: Heading)
    requires n <= |lines|
  {
    h.line < n && IsHeading(lines, h.line) && h == HeadingAt(lines, h.line)
  }

  /** Exactly the heading lines. */
  lemma {:induction false} HeadingsAre(lines: seq<string>, n: nat, h: Heading)
    requires n <= |lines|
    ensures h in Headings(lines, n) <==> Lists(lines, n, h)
  {
    if n > 0 {
      HeadingsAre(lines, n - 1, h);
      if h.line == n - 1 {
        assert !Lists(lines, n - 1, h);
      }
    }
  }

  /** Each once and in order. */
  lemma {:induction false} HeadingsIncrease(lines: seq<string>, n: nat)
    requires n <= |lines|
    ensures Ordered(Headings(lines, n), n)
  {
    if n > 0 {
      HeadingsIncrease(lines, n - 1);
      var hs := Headings(lines, n - 1);
      assert forall i :: 0 <= i < |hs| ==> hs[i] in hs;
    }
  }

  method FindHeadings(lines: seq<string>) returns (headings: seq<Heading>)
    ensures headings == Headings(lines, |lines|)
  {
    headings := [];
    var inFencedBlock := false;
    for i := 0 to |lines|
      invariant inFencedBlock == FencedAfter(lines, i)
      invariant headings == Headings(lines, i)
    {
      if FenceLine(lines[i]) {
        inFencedBlock := !inFencedBlock;
      }
      if !inFencedBlock {
        var h := ParseHeading(lines[i]);
        if h.Some? {
          headings := headings + [Heading(h.value.0, h.value.1, i)];
        }
      }
    }
  }

  // ---- sections ----

  /** Line of the first heading from j on that is not deeper than level, or the end. */
  function EndFrom(headings: seq<Heading>, level: nat, j: nat, end: nat): (r: nat)
    requires j <= |headings|
    decreases |headings| - j
  {
    if j == |headings| then end
    else if headings[j].level <= level then headings[j].line
    else EndFrom(headings, level, j + 1, end)
  }

  function SectionEnd(headings: seq<Heading>, i: nat, end: nat): nat
    requires i < |headings|
  {
    EndFrom(headings, headings[i].level, i + 1, end)
  }

  function CollectContent(lines: seq<string>, start: nat, end: nat): string
    requires end <= |lines|
  {
    if start >= end then "" else TrimSpace(Join(lines[start..end], '\n'))
  }

  function SectionAt(lines: seq<string>, headings: seq<Heading>, i: nat): Section
    requires i < |headings| && SectionEnd(headings, i, |lines|) <= |lines|
  {
    var h := headings[i];
    Section(h.text, h.level, CollectContent(lines, h.line + 1, SectionEnd(headings, i, |lines|)))
  }

  /** Strictly increasing lines below end. */
  ghost predicate Ordered(headings: seq<Heading>, end: nat) {
    && (forall h :: h in headings ==> h.line < end)
    && forall i, j :: 0 <= i < j < |headings| ==> headings[i].line < headings[j].line
  }

  /** Every heading strictly between i and up to j is deeper than heading i. */
  ghost predicate Deeper(headings: seq<Heading>, i: nat, j: nat)
    requires i < |headings| && j < |headings|
  {
    forall k :: i < k <= j ==> headings[k].level > headings[i].level
  }

  lemma {:induction false} EndFromFacts(headings: seq<Heading>, level: nat, j: nat, end: nat)
    requires j <= |headings| && Ordered(headings, end)
    ensures EndFrom(headings, level, j, end) <= end
    ensures forall k :: j <= k < |headings| ==>
        (headings[k].line < EndFrom(headings, level, j, end) <==> forall m :: j <= m <= k ==> headings[m].level > level)
    decreases |headings| - j
  {
    if j < |headings| {
      assert headings[j] in headings;
      EndFromFacts(headings, level, j + 1, end);
      forall k | j <= k < |headings|
        ensures headings[k].line < EndFrom(headings, level, j, end) <==>
            forall m :: j <= m <= k ==> headings[m].level > level
      {
        if headings[j].level > level && k == j {
          NotBefore(headings, level, j + 1, end, headings[j].line);
        }
      }
    }
  }

  lemma {:induction false} NotBefore(headings: seq<Heading>, level: nat, j: nat, end: nat, line: nat)
    requires j <= |headings| && line < end && forall k :: j <= k < |headings| ==> line < headings[k].line
    ensures line < EndFrom(headings, level, j, end)
    decreases |headings| - j
  {
    if j < |headings| && headings[j].level > level {
      NotBefore(headings, level, j + 1, end, line);
    }
  }

  lemma {:induction false} DeeperEndsLater(headings: seq<Heading>, deep: nat, shallow: nat, j: nat, end: nat)
    requires j <= |headings| && shallow <= deep && Ordered(headings, end)
    ensures EndFrom(headings, deep, j, end) <= EndFrom(headings, shallow, j, end)
    decreases |headings| - j
  {
    if j < |headings| && headings[j].level > shallow {
      if headings[j].level > deep {
        DeeperEndsLater(headings, deep, shallow, j + 1, end);
      } else {
        assert headings[j] in headings;
        NotBefore(headings, shallow, j + 1, end, headings[j].line);
      }
    }
  }

  lemma {:induction false} SkipDeeper(headings: seq<Heading>, level: nat, j: nat, k: nat, end: nat)
    requires j <= k <= |headings| && forall m :: j <= m < k ==> headings[m].level > level
    ensures EndFrom(headings, level, j, end) == EndFrom(headings, level, k, end)
    decreases k - j
  {
    if j < k {
      SkipDeeper(headings, level, j + 1, k, end);
    }
  }

  /**
   Section ranges form a laminar family: a later heading lies in section i exactly when every heading from i + 1 up to
   it is deeper than i, and then its section ends no later; otherwise section i ends at or before it.
   */
  lemma Laminar(headings: seq<Heading>, end: nat, i: nat, j: nat)
    requires Ordered(headings, end) && i < j < |headings|
    ensures headings[j].line < SectionEnd(headings, i, end) <==> Deeper(headings, i, j)
    ensures Deeper(headings, i, j) ==> SectionEnd(headings, j, end) <= SectionEnd(headings, i, end)
    ensures !Deeper(headings, i, j) ==> SectionEnd(headings, i, end) <= headings[j].line
    ensures SectionEnd(headings, i, end) <= end
  {
    EndFromFacts(headings, headings[i].level, i + 1, end);
    if Deeper(headings, i, j) {
      SkipDeeper(headings, headings[i].level, i + 1, j + 1, end);
      DeeperEndsLater(headings, headings[j].level, headings[i].level, j + 1, end);
    }
  }

  // ---- content ----

  lemma {:induction false} TrimLeftOfBlank(s: string)
    ensures Blank(s) <==> TrimLeft(s) == ""
  {
    if s != [] {
      assert s == [s[0]] + s[1..];
      TrimLeftOfBlank(s[1..]);
    }
  }

  lemma BlankIff(s: string)
    ensures TrimSpace(s) == "" <==> Blank(s)
  {
    TrimLeftOfBlank(s);
    TrimLeftFacts(s);
    var t := TrimLeft(s);
    if t != [] {
      TrimRightKeepsStart(t);
    }
  }

  lemma {:induction false} TrimRightKeepsStart(t: string)
    requires t != [] && !IsSpace(t[0])
    ensures TrimRight(t) != []
  {
    if |t| > 1 && IsSpace(t[|t| - 1]) {
      TrimRightKeepsStart(t[..|t| - 1]);
    }
  }

  lemma BlankConcat(a: string, b: string)
    ensures Blank(a + b) <==> Blank(a) && Blank(b)
  {
    if Blank(a + b) {
      assert forall c :: c in a || c in b ==> c in a + b;
    }
  }

  lemma {:induction false} JoinBlankIff(lines: seq<string>)
    ensures Blank(Join(lines, '\n')) <==> forall l :: l in lines ==> Blank(l)
    decreases |lines|
  {
    if |lines| == 1 {
      assert forall l :: l in lines <==> l == lines[0];
    } else if |lines| > 1 {
      JoinBlankIff(lines[1..]);
      assert lines == [lines[0]] + lines[1..];
      BlankConcat(lines[0] + ['\n'], Join(lines[1..], '\n'));
      BlankConcat(lines[0], ['\n']);
    }
  }

  /** A range has empty content exactly when all its lines are blank. */
  lemma EmptyContentIff(lines: seq<string>, start: nat, end: nat)
    requires end <= |lines|
    ensures CollectContent(lines, start, end) == "" <==> forall k :: start <= k < end ==> Blank(lines[k])
  {
    if start < end {
      var range := lines[start..end];
      BlankIff(Join(range, '\n'));
      JoinBlankIff(range);
      assert forall k :: start <= k < end ==> lines[k] == range[k - start];
      assert forall k :: 0 <= k < |range| ==> range[k] == lines[start + k];
    }
  }

  lemma HeadingNotBlank(line: string)
    requires HeadingOf(line).Some?
    ensures !Blank(line)
  {
    BlankIff(line);
  }

  /** A section without content has no subsection: the next heading, if any, is not deeper. */
  lemma EmptyHasNoSubsection(lines: seq<string>, i: nat)
    requires var hs := Headings(lines, |lines|); i + 1 < |hs|
    ensures var hs := Headings(lines, |lines|);
            && SectionEnd(hs, i, |lines|) <= |lines|
            && (SectionAt(lines, hs, i).content == "" ==> hs[i + 1].level <= hs[i].level)
  {
    var hs := Headings(lines, |lines|);
    HeadingsIncrease(lines, |lines|);
    Laminar(hs, |lines|, i, i + 1);
    var h := hs[i + 1];
    HeadingsAre(lines, |lines|, h);
    HeadingNotBlank(lines[h.line]);
    EmptyContentIff(lines, hs[i].line + 1, SectionEnd(hs, i, |lines|));
  }

  // ---- the parser ----

  lemma EndsInside(headings: seq<Heading>, end: nat, i: nat)
    requires Ordered(headings, end) && i < |headings|
    ensures SectionEnd(headings, i, end) <= end
  {
    EndFromFacts(headings, headings[i].level, i + 1, end);
  }

  ghost predicate SectionsOf(sections: seq<Section>, lines: seq<string>, headings: seq<Heading>) {
    && |sections| <= |headings|
    && forall i :: 0 <= i < |sections| ==>
         SectionEnd(headings, i, |lines|) <= |lines| && sections[i] == SectionAt(lines, headings, i)
  }

  function DescriptionEnd(headings: seq<Heading>, end: nat): nat {
    if |headings| > 1 then headings[1].line else end
  }

  /** The specification parsed from its lines. */
  ghost predicate Parsed(spec: Spec, lines: seq<string>) {
    var hs := Headings(lines, |lines|);
    if hs == [] then spec == Spec("", "", [])
    else
      && spec.title == hs[0].text
      && DescriptionEnd(hs, |lines|) <= |lines|
      && spec.description == CollectContent(lines, hs[0].line + 1, DescriptionEnd(hs, |lines|))
      && |spec.sections| == |hs| && SectionsOf(spec.sections, lines, hs)
  }

  method EndOfSection(headings: seq<Heading>, i: nat, end: nat) returns (r: nat)
    requires i < |headings|
    ensures r == SectionEnd(headings, i, end)
  {
    for j := i + 1 to |headings|
      invariant EndFrom(headings, headings[i].level, j, end) == SectionEnd(headings, i, end)
    {
      if headings[j].level <= headings[i].level {
        return headings[j].line;
      }
    }
    r := end;
  }

  method BuildSections(lines: seq<string>, headings: seq<Heading>) returns (sections: seq<Section>)
    requires Ordered(headings, |lines|)
    ensures |sections| == |headings| && SectionsOf(sections, lines, headings)
  {
    sections := [];
    for i := 0 to |headings|
      invariant |sections| == i && SectionsOf(sections, lines, headings)
    {
      EndsInside(headings, |lines|, i);
      var end := EndOfSection(headings, i, |lines|);
      var content := CollectContent(lines, headings[i].line + 1, end);
      sections := sections + [Section(headings[i].text, headings[i].level, content)];
    }
  }

  method ParseLines(lines: seq<string>) returns (spec: Spec)
    ensures Parsed(spec, lines)
  {
    var headings := FindHeadings(lines);
    if |headings| == 0 {
      return Spec("", "", []);
    }
    HeadingsIncrease(lines, |lines|);
    var descEnd := |lines|;
    if |headings| > 1 {
      assert headings[1] in headings;
      descEnd := headings[1].line;
    }
    var description := CollectContent(lines, headings[0].line + 1, descEnd);
    var sections := BuildSections(lines, headings);
    spec := Spec(headings[0].text, description, sections);
  }

  // ---- raw text ----

  /** strings.ReplaceAll of a carriage return and newline by a newline. */
  function Normalize(raw: string): string
    decreases |raw|
  {
    if raw == [] then []
    else if |raw| > 1 && raw[0] == '\r' && raw[1] == '\n' then ['\n'] + Normalize(raw[2..])
    else [raw[0]] + Normalize(raw[1..])
  }

  function TrimNewlines(s: string): string {
    if s != [] && s[|s| - 1] == '\n' then TrimNewlines(s[..|s| - 1]) else s
  }

  function SpecLines(raw: string): seq<string> {
    Split(TrimNewlines(Normalize(raw)), '\n')
  }

  /** None for a text of spaces only. */
  method Parse(raw: string) returns (spec: Option<Spec>)
    ensures spec.None? <==> TrimSpace(raw) == ""
    ensures spec.Some? ==> Parsed(spec.value, SpecLines(raw))
  {
    if TrimSpace(raw) == "" {
      return None;
    }
    var parsed := ParseLines(SpecLines(raw));
    spec := Some(parsed);
  }
}
