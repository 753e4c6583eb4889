/** The specification linter's own account of headings and sections, with lines counted from 1, against the parser's. */
module SpecLint {
  import opened GoStrings
  import opened SpecParser
  import opened Wrappers

  /** line counts from 1. */
  datatype LintHeading = LintHeading(level: nat, text: string, line: nat)

  datatype Diagnostic =
    | EmptySpec
    | UnclosedFence
    | NoTitle
    | NoDescription(line: nat)
    | EmptySection(line: nat)

  function FromParser(h: Heading): LintHeading {
    LintHeading(h.level, h.text, h.line + 1)
  }

  /** The linter's list is the parser's, one line on. */
  ghost predicate SameHeadings(mine: seq<LintHeading>, theirs: seq<Heading>) {
    |mine| == |theirs| && forall i :: 0 <= i < |mine| ==> mine[i] == FromParser(theirs[i])
  }

  /** first is the linter's title. */
  ghost predicate Titled(mine: seq<LintHeading>, theirs: seq<Heading>, first: LintHeading) {
    SameHeadings(mine, theirs) && FirstL1(theirs) < |theirs| && first == FromParser(theirs[FirstL1(theirs)])
  }

  method ExtractHeadings(lines: seq<string>) returns (headings: seq<LintHeading>, unclosed: bool)
    ensures SameHeadings(headings, Headings(lines, |lines|))
    ensures unclosed == FencedAfter(lines, |lines|)
  {
    headings, unclosed := [], false;
    for i := 0 to |lines|
      invariant unclosed == FencedAfter(lines, i)
      invariant SameHeadings(headings, Headings(lines, i))
    {
      if FenceLine(lines[i]) {
        unclosed := !unclosed;
      }
      if !unclosed {
        var h := ParseHeading(lines[i]);
        if h.Some? {
          headings := headings + [LintHeading(h.value.0, h.value.1, i + 1)];
        }
      }
    }
  }

  /** Index of the first level-1 heading, or the number of headings. */
  function FirstL1(headings: seq<Heading>): (i: nat)
    ensures i <= |headings|
    ensures forall k :: 0 <= k < i ==> headings[k].level != 1
    ensures i < |headings| ==> headings[i].level == 1
  {
    if headings == [] || headings[0].level == 1 then 0 else 1 + FirstL1(headings[1..])
  }

  method FindFirstL1(headings: seq<LintHeading>, ghost theirs: seq<Heading>) returns (first: Option<LintHeading>)
    requires SameHeadings(headings, theirs)
    ensures first.None? <==> FirstL1(theirs) == |theirs|
    ensures first.Some? ==> first.value == FromParser(theirs[FirstL1(theirs)])
  {
    for i := 0 to |headings|
      invariant forall k :: 0 <= k < i ==> theirs[k].level != 1
    {
      if headings[i].level == 1 {
        return Some(headings[i]);
      }
    }
    first := None;
  }

  /** collectContent here also guards its bounds. */
  function CollectBounded(lines: seq<string>, start: nat, end: nat): string {
    if start >= end || start >= |lines| then ""
    else CollectContent(lines, start, if end > |lines| then |lines| else end)
  }

  method LintSectionEnd(headings: seq<LintHeading>, i: nat, end: nat, ghost theirs: seq<Heading>) returns (r: nat)
    requires SameHeadings(headings, theirs) && i < |headings|
    ensures r == SectionEnd(theirs, i, end)
  {
    for j := i + 1 to |headings|
      invariant EndFrom(theirs, theirs[i].level, j, end) == SectionEnd(theirs, i, end)
    {
      if headings[j].level <= headings[i].level {
        return headings[j].line - 1;
      }
    }
    r := end;
  }

  /** Section i holds nothing but blank lines. */
  predicate EmptyAt(lines: seq<string>, headings: seq<Heading>, i: nat)
    requires i < |headings|
  {
    CollectBounded(lines, headings[i].line + 1, SectionEnd(headings, i, |lines|)) == ""
  }

  predicate Flags(lines: seq<string>, headings: seq<Heading>, i: nat)
    requires i < |headings|
  {
    i != FirstL1(headings) && EmptyAt(lines, headings, i)
  }

  /** The warnings for the first n sections. */
  function EmptySections(lines: seq<string>, headings: seq<Heading>, n: nat): seq<Diagnostic>
    requires n <= |headings|
  {
    if n == 0 then []
    else
      EmptySections(lines, headings, n - 1) + SectionFlag(lines, headings, n - 1)
  }

  function AllEmptySections(lines: seq<string>, headings: seq<Heading>): seq<Diagnostic> {
    EmptySections(lines, headings, |headings|)
  }

  function SectionFlag(lines: seq<string>, headings: seq<Heading>, i: nat): seq<Diagnostic>
    requires i < |headings|
  {
    if Flags(lines, headings, i) then [EmptySection(headings[i].line + 1)] else []
  }

  lemma OneMoreSection(lines: seq<string>, headings: seq<Heading>, i: nat)
    requires i < |headings|
    ensures EmptySections(lines, headings, i + 1) == EmptySections(lines, headings, i) + SectionFlag(lines, headings, i)
  {
  }

  predicate FlaggedAs(lines: seq<string>, headings: seq<Heading>, i: nat, d: Diagnostic)
    requires i < |headings|
  {
    Flags(lines, headings, i) && d == EmptySection(headings[i].line + 1)
  }

  lemma {:induction false} FlaggedFrom(lines: seq<string>, headings: seq<Heading>, n: nat, d: Diagnostic)
    returns (i: nat)
    requires n <= |headings| && d in EmptySections(lines, headings, n)
    ensures i < n && FlaggedAs(lines, headings, i, d)
  {
    if FlaggedAs(lines, headings, n - 1, d) {
      i := n - 1;
    } else {
      i := FlaggedFrom(lines, headings, n - 1, d);
    }
  }

  lemma {:induction false} FlaggedListed(lines: seq<string>, headings: seq<Heading>, n: nat, i: nat, d: Diagnostic)
    requires i < n <= |headings| && FlaggedAs(lines, headings, i, d)
    ensures d in EmptySections(lines, headings, n)
  {
    if i < n - 1 {
      FlaggedListed(lines, headings, n - 1, i, d);
    }
  }

  /** The line of heading i is reported exactly when section i is flagged. */
  lemma FlaggedIff(lines: seq<string>, headings: seq<Heading>, i: nat)
    requires i < |headings| && Ordered(headings, |lines|)
    ensures EmptySection(headings[i].line + 1) in AllEmptySections(lines, headings) <==> Flags(lines, headings, i)
  {
    var d := EmptySection(headings[i].line + 1);
    if d in EmptySections(lines, headings, |headings|) {
      var k := FlaggedFrom(lines, headings, |headings|, d);
      assert k == i;
    }
    if Flags(lines, headings, i) {
      FlaggedListed(lines, headings, |headings|, i, d);
    }
  }

  lemma {:induction false} OnlyEmptySections(lines: seq<string>, headings: seq<Heading>, n: nat)
    requires n <= |headings|
    ensures forall d :: d in EmptySections(lines, headings, n) ==> d.EmptySection?
  {
    if n > 0 { OnlyEmptySections(lines, headings, n - 1); }
  }

  /** The first level-1 heading is passed over. */
  method CheckEmptySections(lines: seq<string>, headings: seq<LintHeading>, first: LintHeading,
                            ghost theirs: seq<Heading>)
      returns (diags: seq<Diagnostic>)
    requires Titled(headings, theirs, first) && Ordered(theirs, |lines|)
    ensures diags == AllEmptySections(lines, theirs)
  {
    diags := [];
    for i := 0 to |headings|
      invariant diags == EmptySections(lines, theirs, i)
    {
      var flagged := CheckSection(lines, headings, first, i, theirs);
      diags := diags + flagged;
    }
  }

  lemma OnlyTitle(mine: seq<LintHeading>, theirs: seq<Heading>, first: LintHeading, end: nat, i: nat)
    requires Titled(mine, theirs, first) && Ordered(theirs, end) && i < |mine|
    ensures mine[i] == first <==> i == FirstL1(theirs)
  {
  }

  method CheckSection(lines: seq<string>, headings: seq<LintHeading>, first: LintHeading, i: nat,
                      ghost theirs: seq<Heading>)
      returns (flagged: seq<Diagnostic>)
    requires Titled(headings, theirs, first) && Ordered(theirs, |lines|) && i < |headings|
    ensures EmptySections(lines, theirs, i + 1) == EmptySections(lines, theirs, i) + flagged
  {
    OneMoreSection(lines, theirs, i);
    OnlyTitle(headings, theirs, first, |lines|, i);
    if headings[i] == first {
      return [];
    }
    var end := LintSectionEnd(headings, i, |lines|, theirs);
    flagged := if CollectBounded(lines, headings[i].line, end) == "" then [EmptySection(headings[i].line)] else [];
  }

  /** Where the linter sees the title's description end: at the next heading of any level. */
  function TitleEnd(headings: seq<Heading>, end: nat): nat {
    var t := FirstL1(headings);
    if t + 1 < |headings| then headings[t + 1].line else end
  }

  predicate Undescribed(lines: seq<string>, headings: seq<Heading>)
    requires FirstL1(headings) < |headings|
  {
    CollectBounded(lines, headings[FirstL1(headings)].line + 1, TitleEnd(headings, |lines|)) == ""
  }

  function DescriptionFlag(undescribed: bool, line: nat): (d: seq<Diagnostic>)
    ensures (exists l :: NoDescription(l) in d) <==> undescribed
    ensures forall x :: x in d ==> x.NoDescription?
  {
    if undescribed then
      assert NoDescription(line) in [NoDescription(line)];
      [NoDescription(line)]
    else []
  }

  function Description(lines: seq<string>, headings: seq<Heading>): seq<Diagnostic>
    requires FirstL1(headings) < |headings|
  {
    DescriptionFlag(Undescribed(lines, headings), headings[FirstL1(headings)].line + 1)
  }

  method CheckDescription(lines: seq<string>, headings: seq<LintHeading>, first: LintHeading,
                          ghost theirs: seq<Heading>)
      returns (diags: seq<Diagnostic>)
    requires Titled(headings, theirs, first) && Ordered(theirs, |lines|)
    ensures diags == Description(lines, theirs)
  {
    var descEnd := |lines|;
    var i := 0;
    while i < |headings| && headings[i].line <= first.line
      invariant i <= FirstL1(theirs) + 1
    {
      i := i + 1;
    }
    assert i == FirstL1(theirs) + 1;
    if i < |headings| {
      descEnd := headings[i].line - 1;
    }
    diags := DescriptionFlag(CollectBounded(lines, first.line, descEnd) == "", first.line);
  }

  function Reports(lines: seq<string>): seq<Diagnostic> {
    var hs := Headings(lines, |lines|);
    (if FencedAfter(lines, |lines|) then [UnclosedFence] else [])
    + (if FirstL1(hs) == |hs| then [NoTitle] else Description(lines, hs) + AllEmptySections(lines, hs))
  }

  method LintSpec(raw: string) returns (diags: seq<Diagnostic>)
    ensures diags == if TrimSpace(raw) == "" then [EmptySpec] else Reports(SpecLines(raw))
  {
    if TrimSpace(raw) == "" {
      return [EmptySpec];
    }
    var lines := SpecLines(raw);
    var headings, unclosed := ExtractHeadings(lines);
    ghost var hs := Headings(lines, |lines|);
    diags := if unclosed then [UnclosedFence] else [];
    var first := FindFirstL1(headings, hs);
    if first.None? {
      return diags + [NoTitle];
    }
    HeadingsIncrease(lines, |lines|);
    var description := CheckDescription(lines, headings, first.value, hs);
    var empty := CheckEmptySections(lines, headings, first.value, hs);
    diags := diags + (description + empty);
  }

  // ---- the two accounts against each other ----

  lemma EmptyAtIsParsers(lines: seq<string>, spec: Spec, i: nat)
    requires Parsed(spec, lines) && i < |Headings(lines, |lines|)|
    ensures |spec.sections| == |Headings(lines, |lines|)|
    ensures EmptyAt(lines, Headings(lines, |lines|), i) <==> spec.sections[i].content == ""
  {
    var hs := Headings(lines, |lines|);
    assert hs[i] in hs;
    assert spec.sections[i] == SectionAt(lines, hs, i);
  }

  lemma ReportsWith(lines: seq<string>, headings: seq<Heading>, d: Diagnostic)
    requires headings == Headings(lines, |lines|) && FirstL1(headings) < |headings|
    ensures d.EmptySection? ==> (d in Reports(lines) <==> d in AllEmptySections(lines, headings))
    ensures d.NoDescription? ==> (d in Reports(lines) <==> d in Description(lines, headings))
  {
    OnlyEmptySections(lines, headings, |headings|);
  }

  /**
   With a title present, the linter reports the i-th section as empty exactly when the parser gives it no content and it
   is not the first of level 1.
   */
  lemma FlagsWhatTheParserLeavesEmpty(lines: seq<string>, headings: seq<Heading>, spec: Spec, i: nat)
    requires Parsed(spec, lines) && headings == Headings(lines, |lines|)
    requires i < |headings| && FirstL1(headings) < |headings|
    ensures |spec.sections| == |headings|
    ensures EmptySection(headings[i].line + 1) in Reports(lines) <==>
        i != FirstL1(headings) && spec.sections[i].content == ""
  {
    HeadingsIncrease(lines, |lines|);
    EmptyAtIsParsers(lines, spec, i);
    FlaggedIff(lines, headings, i);
    ReportsWith(lines, headings, EmptySection(headings[i].line + 1));
  }

  /** No line of the range holds anything but spaces. */
  ghost predicate BlankRange(lines: seq<string>, start: nat, end: nat)
    requires end <= |lines|
  {
    forall k :: start <= k < end ==> Blank(lines[k])
  }

  lemma TitleEndInside(headings: seq<Heading>, end: nat)
    requires Ordered(headings, end) && headings != []
    ensures TitleEnd(headings, end) <= end && DescriptionEnd(headings, end) <= end
  {
    if FirstL1(headings) + 1 < |headings| { assert headings[FirstL1(headings) + 1] in headings; }
    if |headings| > 1 { assert headings[1] in headings; }
  }

  lemma ParsedDescription(lines: seq<string>, headings: seq<Heading>, spec: Spec)
    requires Parsed(spec, lines) && headings == Headings(lines, |lines|) && headings != []
    ensures DescriptionEnd(headings, |lines|) <= |lines|
    ensures spec.description == CollectContent(lines, headings[0].line + 1, DescriptionEnd(headings, |lines|))
  {
  }

  lemma RangeIsBlank(lines: seq<string>, start: nat, end: nat)
    requires end <= |lines|
    ensures CollectBounded(lines, start, end) == "" <==> BlankRange(lines, start, end)
  {
    EmptyContentIff(lines, start, end);
  }

  /** Some heading is reported to have no description. */
  ghost predicate Complains(lines: seq<string>) {
    exists l :: NoDescription(l) in Reports(lines)
  }

  lemma ComplainsIff(lines: seq<string>, headings: seq<Heading>)
    requires headings == Headings(lines, |lines|) && FirstL1(headings) < |headings|
    ensures Complains(lines) <==> Undescribed(lines, headings)
  {
    forall l ensures NoDescription(l) in Reports(lines) <==> NoDescription(l) in Description(lines, headings) {
      ReportsWith(lines, headings, NoDescription(l));
    }
  }

  /** The lines the linter judges: below the first heading of level 1, up to the next of any level. */
  ghost predicate BlankBelowTitle(lines: seq<string>, headings: seq<Heading>)
    requires FirstL1(headings) < |headings|
  {
    && TitleEnd(headings, |lines|) <= |lines|
    && BlankRange(lines, headings[FirstL1(headings)].line + 1, TitleEnd(headings, |lines|))
  }

  /** The lines the parser's description is made of: below the first heading of any level, up to the next. */
  ghost predicate BlankBelowFirst(lines: seq<string>, headings: seq<Heading>)
    requires headings != []
  {
    && DescriptionEnd(headings, |lines|) <= |lines|
    && BlankRange(lines, headings[0].line + 1, DescriptionEnd(headings, |lines|))
  }

  lemma UndescribedIff(lines: seq<string>, headings: seq<Heading>)
    requires FirstL1(headings) < |headings| && TitleEnd(headings, |lines|) <= |lines|
    ensures Undescribed(lines, headings) <==> BlankBelowTitle(lines, headings)
  {
    RangeIsBlank(lines, headings[FirstL1(headings)].line + 1, TitleEnd(headings, |lines|));
  }

  lemma LinterVerdict(lines: seq<string>, headings: seq<Heading>)
    requires headings == Headings(lines, |lines|) && FirstL1(headings) < |headings|
    ensures TitleEnd(headings, |lines|) <= |lines|
    ensures Complains(lines) <==> BlankBelowTitle(lines, headings)
  {
    HeadingsIncrease(lines, |lines|);
    TitleEndInside(headings, |lines|);
    ComplainsIff(lines, headings);
    UndescribedIff(lines, headings);
  }

  lemma ParserVerdict(lines: seq<string>, headings: seq<Heading>, spec: Spec)
    requires Parsed(spec, lines) && headings == Headings(lines, |lines|) && headings != []
    ensures DescriptionEnd(headings, |lines|) <= |lines|
    ensures spec.description == "" <==> BlankBelowFirst(lines, headings)
  {
    ParsedDescription(lines, headings, spec);
    EmptyContentIff(lines, headings[0].line + 1, DescriptionEnd(headings, |lines|));
  }

  /** The two verdicts on the description, each from its own range of lines, which lies inside the text. */
  lemma DescriptionVerdicts(lines: seq<string>, headings: seq<Heading>, spec: Spec)
    requires Parsed(spec, lines) && headings == Headings(lines, |lines|) && FirstL1(headings) < |headings|
    ensures TitleEnd(headings, |lines|) <= |lines| && DescriptionEnd(headings, |lines|) <= |lines|
    ensures spec.description == "" <==> BlankBelowFirst(lines, headings)
    ensures Complains(lines) <==> BlankBelowTitle(lines, headings)
  {
    LinterVerdict(lines, headings);
    ParserVerdict(lines, headings, spec);
  }

  /** When the text opens with a level-1 heading, the linter misses a description exactly when the parser has none. */
  lemma TitleFirstAgrees(lines: seq<string>, headings: seq<Heading>, spec: Spec)
    requires Parsed(spec, lines) && headings == Headings(lines, |lines|) && headings != [] && headings[0].level == 1
    ensures Complains(lines) <==> spec.description == ""
  {
    FirstIsTitle(lines, headings);
    DescriptionVerdicts(lines, headings, spec);
  }

  lemma FirstIsTitle(lines: seq<string>, headings: seq<Heading>)
    requires headings != [] && headings[0].level == 1
    ensures FirstL1(headings) == 0
    ensures BlankBelowTitle(lines, headings) <==> BlankBelowFirst(lines, headings)
  {
    assert TitleEnd(headings, |lines|) == DescriptionEnd(headings, |lines|);
  }

  /**
   When it opens with a deeper heading, the two judge different texts: the parser's description ends before the linter's
   title.
   */
  lemma DeeperFirstDiffers(lines: seq<string>, headings: seq<Heading>)
    requires headings == Headings(lines, |lines|) && headings != [] && headings[0].level != 1
    requires FirstL1(headings) < |headings|
    ensures DescriptionEnd(headings, |lines|) <= headings[FirstL1(headings)].line
  {
    HeadingsIncrease(lines, |lines|);
  }

  lemma {:induction false} HeadingLine(level: nat, line: string)
    requires (level == 1 && line == "# A") || (level == 2 && line == "## A")
    ensures HeadingOf(line) == Some((level, "A")) && !FenceLine(line)
  {
    TrimSpaceFacts(line);
    assert Hashes(" A") == 0;
    assert "# A"[1..] == " A" && "## A"[1..] == "# A";
    assert line[level..] == " A";
    LetterTrimmed();
  }

  lemma {:induction false} LetterTrimmed()
    ensures TrimSpace(" A") == "A"
  {
    assert " A"[1..] == "A";
    assert TrimLeft("A") == "A" && TrimRight("A") == "A";
    assert TrimLeft(" A") == TrimLeft("A");
  }

  lemma TextLine()
    ensures HeadingOf("a").None? && !FenceLine("a") && !Blank("a")
  {
    TrimSpaceFacts("a");
    assert Hashes("a") == 0;
    assert 'a' in "a";
  }

  function HeadingIf(lines: seq<string>, i: nat): seq<Heading>
    requires i < |lines|
  {
    if IsHeading(lines, i) then [HeadingAt(lines, i)] else []
  }

  lemma Unfenced(a: string, b: string, c: string)
    requires !FenceLine(a) && !FenceLine(b) && !FenceLine(c)
    ensures var lines := [a, b, c];
            forall i :: 0 <= i < 3 ==> (IsHeading(lines, i) <==> HeadingOf(lines[i]).Some?)
  {
    var lines := [a, b, c];
    assert !FencedAfter(lines, 0) && !FencedAfter(lines, 1) && !FencedAfter(lines, 2) && !FencedAfter(lines, 3);
  }

  lemma OneMoreLine(lines: seq<string>, n: nat)
    requires n < |lines|
    ensures Headings(lines, n + 1) == Headings(lines, n) + HeadingIf(lines, n)
  {
  }

  lemma ThreeLines(lines: seq<string>)
    requires |lines| == 3
    ensures Headings(lines, 3) == HeadingIf(lines, 0) + HeadingIf(lines, 1) + HeadingIf(lines, 2)
  {
    OneMoreLine(lines, 0);
    OneMoreLine(lines, 1);
    OneMoreLine(lines, 2);
  }

  /** Two texts on which the verdicts differ, one each way: text only before the title, and text only after it. */
  lemma VerdictsDiffer(before: Spec, later: Spec)
    requires Parsed(before, ["## A", "a", "# A"]) && Parsed(later, ["## A", "# A", "a"])
    ensures before.description != "" && Complains(["## A", "a", "# A"])
    ensures later.description == "" && !Complains(["## A", "# A", "a"])
  {
    HeadingLine(1, "# A");
    HeadingLine(2, "## A");
    TextLine();
    TextBeforeTitle(before);
    TextAfterTitle(later);
  }

  lemma TextBeforeTitle(spec: Spec)
    requires Parsed(spec, ["## A", "a", "# A"])
    ensures spec.description != "" && Complains(["## A", "a", "# A"])
  {
    var lines := ["## A", "a", "# A"];
    HeadingLine(1, "# A");
    HeadingLine(2, "## A");
    TextLine();
    Unfenced("## A", "a", "# A");
    ThreeLines(lines);
    var hs := Headings(lines, 3);
    assert hs == [Heading(2, "A", 0), Heading(1, "A", 2)];
    assert FirstL1(hs) == 1 by { assert FirstL1(hs[1..]) == 0; }
    DescriptionVerdicts(lines, hs, spec);
    assert !Blank(lines[1]);
  }

  lemma TextAfterTitle(spec: Spec)
    requires Parsed(spec, ["## A", "# A", "a"])
    ensures spec.description == "" && !Complains(["## A", "# A", "a"])
  {
    var lines := ["## A", "# A", "a"];
    HeadingLine(1, "# A");
    HeadingLine(2, "## A");
    TextLine();
    Unfenced("## A", "# A", "a");
    ThreeLines(lines);
    var hs := Headings(lines, 3);
    assert hs == [Heading(2, "A", 0), Heading(1, "A", 1)];
    assert FirstL1(hs) == 1 by { assert FirstL1(hs[1..]) == 0; }
    DescriptionVerdicts(lines, hs, spec);
    assert !Blank(lines[2]);
  }
}
