/** Every diagnostic of the specification linter, by what the lines hold. */
module SpecReports {
  import opened SpecParser
  import opened SpecLint
  import opened SpecText
  import opened Wrappers

  ghost predicate TitleOf(headings: seq<Heading>, t: nat) {
    t < |headings| && headings[t].level == 1 && forall i :: 0 <= i < t ==> headings[i].level != 1
  }

  lemma TitleIsFirstL1(headings: seq<Heading>, t: nat)
    ensures TitleOf(headings, t) <==> t == FirstL1(headings) < |headings|
  {
  }

  /** Section i, which is not the title's, has nothing but blank lines. */
  ghost predicate Blanked(lines: seq<string>, headings: seq<Heading>, i: nat)
    requires i < |headings|
  {
    && !TitleOf(headings, i) && SectionEnd(headings, i, |lines|) <= |lines|
    && BlankRange(lines, headings[i].line + 1, SectionEnd(headings, i, |lines|))
  }

  lemma FlagsIff(lines: seq<string>, headings: seq<Heading>, i: nat)
    requires Ordered(headings, |lines|) && i < |headings|
    ensures Flags(lines, headings, i) <==> Blanked(lines, headings, i)
  {
    EndsInside(headings, |lines|, i);
    RangeIsBlank(lines, headings[i].line + 1, SectionEnd(headings, i, |lines|));
    TitleIsFirstL1(headings, i);
  }

  ghost predicate EmptyReported(lines: seq<string>, headings: seq<Heading>, line: nat) {
    exists i :: 0 <= i < |headings| && headings[i].line + 1 == line && Blanked(lines, headings, i)
  }

  lemma EmptySectionsIff(lines: seq<string>, headings: seq<Heading>, line: nat)
    requires Ordered(headings, |lines|)
    ensures EmptySection(line) in AllEmptySections(lines, headings) <==> EmptyReported(lines, headings, line)
  {
    if EmptySection(line) in AllEmptySections(lines, headings) {
      var i := FlaggedFrom(lines, headings, |headings|, EmptySection(line));
      FlagsIff(lines, headings, i);
    }
    if EmptyReported(lines, headings, line) {
      var i :| 0 <= i < |headings| && headings[i].line + 1 == line && Blanked(lines, headings, i);
      FlagsIff(lines, headings, i);
      FlaggedListed(lines, headings, |headings|, i, EmptySection(line));
    }
  }

  /** The lines below the title, which is heading t, are blank up to the next heading. */
  ghost predicate TitleBare(lines: seq<string>, headings: seq<Heading>, line: nat) {
    exists t: nat :: TitleOf(headings, t) && BareBelow(lines, headings, t, line)
  }

  ghost predicate BareBelow(lines: seq<string>, headings: seq<Heading>, t: nat, line: nat)
    requires t < |headings|
  {
    var end := if t + 1 < |headings| then headings[t + 1].line else |lines|;
    headings[t].line + 1 == line && end <= |lines| && BlankRange(lines, line, end)
  }

  lemma FlagSays(undescribed: bool, at: nat, line: nat)
    ensures NoDescription(line) in DescriptionFlag(undescribed, at) <==> undescribed && line == at
  {
  }

  lemma BareIff(lines: seq<string>, headings: seq<Heading>, line: nat)
    requires Ordered(headings, |lines|) && FirstL1(headings) < |headings|
    ensures SpecLint.Undescribed(lines, headings) && line == headings[FirstL1(headings)].line + 1 <==>
        BareBelow(lines, headings, FirstL1(headings), line)
  {
    TitleEndInside(headings, |lines|);
    UndescribedIff(lines, headings);
  }

  lemma DescriptionIff(lines: seq<string>, headings: seq<Heading>, line: nat)
    requires Ordered(headings, |lines|) && FirstL1(headings) < |headings|
    ensures NoDescription(line) in Description(lines, headings) <==> TitleBare(lines, headings, line)
  {
    FlagSays(SpecLint.Undescribed(lines, headings), headings[FirstL1(headings)].line + 1, line);
    BareIff(lines, headings, line);
    forall t: nat ensures TitleOf(headings, t) <==> t == FirstL1(headings) {
      TitleIsFirstL1(headings, t);
    }
  }

  /** What a diagnostic of a text that is not blank says. */
  ghost predicate Says(lines: seq<string>, headings: seq<Heading>, d: Diagnostic) {
    match d
    case EmptySpec => false
    case UnclosedFence => Fences(lines, |lines|) % 2 == 1
    case NoTitle => forall h :: h in headings ==> h.level != 1
    case NoDescription(line) => TitleBare(lines, headings, line)
    case EmptySection(line) => (exists t: nat :: TitleOf(headings, t)) && EmptyReported(lines, headings, line)
  }

  lemma NoTitleIff(headings: seq<Heading>)
    ensures FirstL1(headings) == |headings| <==> forall h :: h in headings ==> h.level != 1
    ensures FirstL1(headings) < |headings| <==> exists t: nat :: TitleOf(headings, t)
  {
    var t := FirstL1(headings);
    TitleIsFirstL1(headings, t);
    if t < |headings| {
      assert headings[t] in headings;
    }
  }

  /** The linter reports exactly the diagnostics that hold of the text. */
  lemma ReportsIff(lines: seq<string>, headings: seq<Heading>, d: Diagnostic)
    requires headings == Headings(lines, |lines|)
    ensures d in Reports(lines) <==> Says(lines, headings, d)
  {
    HeadingsIncrease(lines, |lines|);
    FencedIff(lines, |lines|);
    NoTitleIff(headings);
    if FirstL1(headings) == |headings| && d.NoDescription? {
      assert !TitleBare(lines, headings, d.line);
    }
    if FirstL1(headings) < |headings| {
      OnlyEmptySections(lines, headings, |headings|);
      if d.EmptySection? { EmptySectionsIff(lines, headings, d.line); }
      if d.NoDescription? { DescriptionIff(lines, headings, d.line); }
    }
  }
}
