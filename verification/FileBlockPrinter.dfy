/** The patch prompt's file listing, and the round trip between printing and parsing. */
module FileBlockPrinter {
  import opened GoStrings
  import opened FileBlocks

  function HeaderText(path: string): string {
    FILE_PREFIX + path + FILE_SUFFIX
  }

  /** One block of the patch prompt. */
  function PrintBlock(path: string, content: string): string {
    HeaderText(path) + "\n" + content + FILE_END + "\n\n"
  }

  /** The files in the order given; the prompt uses sorted order. */
  function PrintFiles(paths: seq<string>, files: FileSet): string
    requires forall p :: p in paths ==> p in files
  {
    if paths == [] then "" else PrintBlock(paths[0], files[paths[0]]) + PrintFiles(paths[1..], files)
  }

  predicate PlainLine(line: string) {
    MarkOf(line) == Plain && Acceptable(line)
  }

  predicate PlainText(text: string) {
    forall l :: l in Split(text, '\n') ==> PlainLine(l)
  }

  /** A path a header can carry and a content a block can carry. */
  predicate PrintableFile(path: string, content: string) {
    && path != "" && Trimmed(path) && '\n' !in path && ValidPath(path)
    && content != [] && NormalizeTrailingNewline(content) == content
    && PlainText(content[..|content| - 1])
  }

  predicate Printable(files: FileSet) {
    forall p :: p in files ==> PrintableFile(p, files[p])
  }

  lemma HeaderLine(path: string)
    requires path != "" && Trimmed(path) && ValidPath(path)
    ensures MarkOf(HeaderText(path)) == Opens(path) && Acceptable(HeaderText(path))
  {
    var line := HeaderText(path);
    assert line[0] == '=' && line[|line| - 1] == '=';
    TrimSpaceFacts(line);
    assert line[..10] == FILE_PREFIX && line[|line| - 4..] == FILE_SUFFIX;
    assert line[10..|line| - 4] == path;
    TrimSpaceFacts(path);
  }

  lemma EndLine()
    ensures MarkOf(FILE_END) == Closes && Acceptable(FILE_END) && PlainLine("")
  {
    assert FILE_END[0] == '=' && FILE_END[|FILE_END| - 1] == '=';
    TrimSpaceFacts(FILE_END);
    assert FILE_END[4] == 'E' && FILE_PREFIX[4] == 'F';
  }

  lemma {:induction false} UnlinesSplit(s: string)
    ensures Unlines(Split(s, '\n')) == s + "\n"
  {
    if s != [] {
      UnlinesSplit(s[1..]);
      var rest := Split(s[1..], '\n');
      var pieces := Split(s, '\n');
      assert s + "\n" == [s[0]] + (s[1..] + "\n");
      if s[0] == '\n' {
        assert pieces[1..] == rest;
      } else {
        assert pieces[1..] == rest[1..] && pieces[0] == [s[0]] + rest[0];
        assert [s[0]] + (rest[0] + "\n" + Unlines(rest[1..])) == [s[0]] + rest[0] + "\n" + Unlines(rest[1..]);
      }
    }
  }

  lemma SplitLines(first: string, body: string, last: string, rest: string)
    requires '\n' !in first && '\n' !in last
    ensures Split(first + ['\n'] + (body + ['\n'] + (last + ['\n'] + ([] + ['\n'] + rest))), '\n')
            == [first] + (Split(body, '\n') + ([last] + ([""] + Split(rest, '\n'))))
  {
    var blank := [] + ['\n'] + rest;
    var ending := last + ['\n'] + blank;
    var inside := body + ['\n'] + ending;
    SplitConcat(first, inside, '\n');
    SplitWithout(first, '\n');
    SplitConcat(body, ending, '\n');
    SplitConcat(last, blank, '\n');
    SplitWithout(last, '\n');
    SplitConcat([], rest, '\n');
  }

  /** The lines of one printed block followed by any text. */
  lemma SplitBlock(path: string, content: string, rest: string)
    requires '\n' !in path && content != [] && content[|content| - 1] == '\n'
    ensures Split(PrintBlock(path, content) + rest, '\n')
            == [HeaderText(path)] + (Split(content[..|content| - 1], '\n') + ([FILE_END] + ([""] + Split(rest, '\n'))))
  {
    var c0 := content[..|content| - 1];
    var header, end := HeaderText(path), FILE_END;
    HeaderHasNoNewline(path);
    assert content == c0 + ['\n'];
    BlockLayout(header, c0, content, end, rest);
    SplitLines(header, c0, end, rest);
  }

  lemma BlockLayout(header: string, c0: string, content: string, end: string, rest: string)
    requires content == c0 + ['\n']
    ensures header + "\n" + content + end + "\n\n" + rest
            == header + ['\n'] + (c0 + ['\n'] + (end + ['\n'] + ([] + ['\n'] + rest)))
  {
  }

  lemma HeaderHasNoNewline(path: string)
    requires '\n' !in path
    ensures '\n' !in HeaderText(path) && '\n' !in FILE_END
  {
  }

  lemma StepPlain(s: Scan, line: string)
    requires s.Scan? && PlainLine(line)
    ensures Step(s, line) == if s.path != "" then s.(content := s.content + line + "\n") else s
  {
    StepByMark(s, line);
  }

  lemma Regroup(a: string, b: string, c: string, d: string)
    ensures a + (b + c + d) == a + b + c + d
  {
  }

  lemma {:induction false} ScanPlain(s: Scan, lines: seq<string>)
    requires s.Scan? && forall l :: l in lines ==> PlainLine(l)
    ensures ScanLines(s, lines) == if s.path != "" then s.(content := s.content + Unlines(lines)) else s
    decreases |lines|
  {
    if lines != [] {
      assert PlainLine(lines[0]);
      StepPlain(s, lines[0]);
      ScanFirst(s, lines);
      ScanPlain(Step(s, lines[0]), lines[1..]);
      Regroup(s.content, lines[0], "\n", Unlines(lines[1..]));
    } else {
      assert s.content + [] == s.content;
    }
  }

  /** A header, plain lines, an end marker and a blank line add one file and lead back outside. */
  lemma ScanBlockLines(files: FileSet, path: string, first: string, body: seq<string>, last: string, tail: seq<string>)
    requires MarkOf(first) == Opens(path) && Acceptable(first) && path != ""
    requires forall l :: l in body ==> PlainLine(l)
    requires MarkOf(last) == Closes && Acceptable(last) && PlainLine("")
    ensures ScanLines(Scan(files, [], "", ""), [first] + (body + ([last] + ([""] + tail))))
            == ScanLines(Scan(files[path := NormalizeTrailingNewline(Unlines(body))], [], "", ""), tail)
  {
    var s0, s1 := Scan(files, [], "", ""), Scan(files, [], path, "");
    var s2 := Scan(files, [], path, Unlines(body));
    var s3 := Scan(files[path := NormalizeTrailingNewline(Unlines(body))], [], "", "");
    StepByMark(s0, first);
    ScanFirst(s0, [first] + (body + ([last] + ([""] + tail))));
    ScanConcat(s1, body, [last] + ([""] + tail));
    ScanPlain(s1, body);
    assert "" + Unlines(body) == Unlines(body);
    StepByMark(s2, last);
    ScanFirst(s2, [last] + ([""] + tail));
    StepByMark(s3, "");
    ScanFirst(s3, [""] + tail);
  }

  /** Reading back one printed block adds exactly that file and leaves the scan outside every block. */
  lemma ScanBlock(files: FileSet, path: string, content: string, rest: string)
    requires PrintableFile(path, content)
    ensures ScanLines(Scan(files, [], "", ""), Split(PrintBlock(path, content) + rest, '\n'))
            == ScanLines(Scan(files[path := content], [], "", ""), Split(rest, '\n'))
  {
    var c0 := content[..|content| - 1];
    NormalizedEnd(content);
    SplitBlock(path, content, rest);
    HeaderLine(path);
    EndLine();
    UnlinesSplit(c0);
    ScanBlockLines(files, path, HeaderText(path), Split(c0, '\n'), FILE_END, Split(rest, '\n'));
  }

  lemma NormalizedEnd(content: string)
    requires content != [] && NormalizeTrailingNewline(content) == content
    ensures content[|content| - 1] == '\n' && content == content[..|content| - 1] + "\n"
  {
  }

  lemma {:induction false} ScanPrinted(base: FileSet, paths: seq<string>, files: FileSet, rest: string)
    requires forall p :: p in paths ==> p in files
    requires Printable(files)
    ensures ScanLines(Scan(base, [], "", ""), Split(PrintFiles(paths, files) + rest, '\n'))
            == ScanLines(Scan(base + Select(paths, files), [], "", ""), Split(rest, '\n'))
    decreases |paths|
  {
    if paths == [] {
      assert "" + rest == rest;
      assert base + Select(paths, files) == base;
    } else {
      var p, others := paths[0], paths[1..];
      var block, more := PrintBlock(p, files[p]), PrintFiles(others, files);
      assert block + more + rest == block + (more + rest);
      ScanBlock(base, p, files[p], more + rest);
      ScanPrinted(base[p := files[p]], others, files, rest);
      SelectFirst(base, paths, files);
    }
  }

  lemma SelectFirst(base: FileSet, paths: seq<string>, files: FileSet)
    requires paths != [] && forall p :: p in paths ==> p in files
    ensures base[paths[0] := files[paths[0]]] + Select(paths[1..], files) == base + Select(paths, files)
  {
    assert forall p :: p in paths <==> p == paths[0] || p in paths[1..];
  }

  function Select(paths: seq<string>, files: FileSet): FileSet
    requires forall p :: p in paths ==> p in files
  {
    map p | p in paths :: files[p]
  }

  /** The file-format patch prompt: an introduction, the files, and everything the prompt says after them. */
  function PatchMessage(intro: string, paths: seq<string>, files: FileSet, tail: string): string
    requires forall p :: p in paths ==> p in files
  {
    intro + "\n\n" + (PrintFiles(paths, files) + tail)
  }

  ghost predicate Enumerates(paths: seq<string>, files: FileSet) {
    forall p :: p in paths <==> p in files
  }

  /** After the file blocks the scan holds exactly the printed files and goes on with the rest of the prompt. */
  lemma PrintedThenTail(intro: string, paths: seq<string>, files: FileSet, tail: string)
    requires PlainText(intro) && Printable(files) && Enumerates(paths, files)
    ensures ParseText(PatchMessage(intro, paths, files, tail))
            == Finish(ScanLines(Scan(files, [], "", ""), Split(tail, '\n')))
  {
    IntroSkipped(intro, PrintFiles(paths, files) + tail);
    ScanPrinted(map[], paths, files, tail);
    SelectAll(paths, files);
  }

  lemma SelectAll(paths: seq<string>, files: FileSet)
    requires Enumerates(paths, files)
    ensures map[] + Select(paths, files) == files
  {
  }

  lemma IntroSkipped(intro: string, rest: string)
    requires PlainText(intro)
    ensures ScanLines(START, Split(intro + "\n\n" + rest, '\n')) == ScanLines(START, Split(rest, '\n'))
  {
    var gap := [] + ['\n'] + rest;
    assert intro + "\n\n" + rest == intro + ['\n'] + gap;
    SplitConcat(intro, gap, '\n');
    SplitConcat([], rest, '\n');
    EndLine();
    var lines := Split(intro, '\n');
    ScanConcat(START, lines, [""] + Split(rest, '\n'));
    ScanPlain(START, lines);
    ScanFirst(START, [""] + Split(rest, '\n'));
    StepByMark(START, "");
  }

  /**
   Parsing a patch prompt returns exactly its files, whatever order they are printed in, when the rest of the
   prompt contains no marker line.
   */
  lemma PrintThenParse(intro: string, paths: seq<string>, files: FileSet, tail: string)
    requires PlainText(intro) && PlainText(tail) && Printable(files) && Enumerates(paths, files) && files != map[]
    ensures ParseText(PatchMessage(intro, paths, files, tail)) == Parsed(files, [], false)
  {
    PrintedThenTail(intro, paths, files, tail);
    ScanPlain(Scan(files, [], "", ""), Split(tail, '\n'));
  }

  /** With any tail: the tail's own blocks overlay the files, and its own unclosed headers are all that is dropped. */
  lemma PrintThenParseAnyTail(intro: string, paths: seq<string>, files: FileSet, tail: string)
    requires PlainText(intro) && Printable(files) && Enumerates(paths, files) && files != map[]
    ensures var r := ParseText(PatchMessage(intro, paths, files, tail));
            var lines := Split(tail, '\n');
            && (r.Parsed? <==> forall l :: l in lines ==> Acceptable(l))
            && (r.Parsed? ==> r.files == files + ClosedFiles(lines) && r.droppedFiles == Unclosed(lines)
                              && (r.truncated <==> LastMark(lines).Opens?))
  {
    PrintedThenTail(intro, paths, files, tail);
    TailAccounts(files, Split(tail, '\n'));
  }

  lemma TailParsed(files: FileSet, lines: seq<string>)
    requires files != map[] && forall l :: l in lines ==> Acceptable(l)
    ensures Finish(ScanLines(Scan(files, [], "", ""), lines))
            == Parsed(files + ClosedFiles(lines), Unclosed(lines), LastMark(lines).Opens?)
  {
    var s := Scan(files, [], "", "");
    ScanAccounts(s, lines);
    ScanEndsInBlock(s, lines);
    assert files + map[] == files;
    assert [] + [] + Unclosed(lines) == Unclosed(lines);
    var p :| p in files;
    assert p in files + ClosedFiles(lines);
  }

  lemma TailAccounts(files: FileSet, lines: seq<string>)
    requires files != map[]
    ensures var r := Finish(ScanLines(Scan(files, [], "", ""), lines));
            && (r.Parsed? <==> forall l :: l in lines ==> Acceptable(l))
            && (r.Parsed? ==> r.files == files + ClosedFiles(lines) && r.droppedFiles == Unclosed(lines)
                              && (r.truncated <==> LastMark(lines).Opens?))
  {
    ScanSucceedsIff(Scan(files, [], "", ""), lines);
    if forall l :: l in lines ==> Acceptable(l) {
      TailParsed(files, lines);
    }
  }

  /**
   The round trip holds for a tail exactly when every header in the tail is acceptable, is closed, and repeats a
   printed file word for word: feedback that quotes other file blocks is read back as files.
   */
  lemma RoundTripIff(intro: string, paths: seq<string>, files: FileSet, tail: string)
    requires PlainText(intro) && Printable(files) && Enumerates(paths, files) && files != map[]
    ensures var lines := Split(tail, '\n');
            ParseText(PatchMessage(intro, paths, files, tail)) == Parsed(files, [], false) <==>
            && (forall l :: l in lines ==> Acceptable(l))
            && Unclosed(lines) == []
            && forall p :: p in ClosedFiles(lines) ==> p in files && files[p] == ClosedFiles(lines)[p]
  {
    PrintThenParseAnyTail(intro, paths, files, tail);
    NothingUnclosed(Split(tail, '\n'));
    OverlayIdentity(files, ClosedFiles(Split(tail, '\n')));
  }

  lemma OverlayIdentity(files: FileSet, more: FileSet)
    ensures files + more == files <==> forall p :: p in more ==> p in files && files[p] == more[p]
  {
    if files + more == files {
      forall p | p in more ensures p in files && files[p] == more[p] {
        assert p in files + more && (files + more)[p] == more[p];
      }
    }
  }

  lemma {:induction false} NothingUnclosed(lines: seq<string>)
    ensures Unclosed(lines) == [] ==> !LastMark(lines).Opens?
  {
    if lines != [] {
      NothingUnclosed(lines[1..]);
      LastMarkFirst(lines);
    }
  }

  lemma {:induction false} LastMarkFirst(lines: seq<string>)
    requires lines != []
    ensures LastMark(lines) == if LastMark(lines[1..]) != Plain then LastMark(lines[1..]) else MarkOf(lines[0])
    ensures LastMark(lines[1..]) == Plain ==> NextMark(lines[1..]) == Plain
  {
    var n := |lines| - 1;
    if n > 0 {
      LastMarkFirst(lines[..n]);
      assert lines[..n][1..] == lines[1..][..n - 1];
      assert lines[1..][n - 1] == lines[n];
      if MarkOf(lines[n]) == Plain {
        NextMarkOfPlain(lines[1..]);
      }
    }
  }

  lemma {:induction false} NextMarkOfPlain(lines: seq<string>)
    requires lines != [] && MarkOf(lines[|lines| - 1]) == Plain
    ensures NextMark(lines) == NextMark(lines[..|lines| - 1])
  {
    if |lines| > 1 {
      assert lines[..|lines| - 1][1..] == lines[1..][..|lines| - 2];
      NextMarkOfPlain(lines[1..]);
    }
  }

  // ---- what the parser produces can be printed ----

  lemma {:induction false} TrimNewlinesJoin(lines: seq<string>) returns (k: nat)
    requires lines != [] && forall l :: l in lines ==> '\n' !in l
    ensures 0 < k <= |lines| && TrimNewlines(Join(lines, '\n')) == Join(lines[..k], '\n')
  {
    var last, n := lines[|lines| - 1], |lines|;
    k := n;
    assert lines[..n] == lines;
    if n > 1 {
      JoinLast(lines);
    }
    if last != "" {
      assert last[|last| - 1] in last;
      assert Join(lines, '\n')[|Join(lines, '\n')| - 1] == last[|last| - 1];
    } else if n > 1 {
      var init := lines[..n - 1];
      k := TrimNewlinesJoin(init);
      assert init[..k] == lines[..k];
      var j := Join(init, '\n');
      assert (j + (['\n'] + ""))[..|j|] == j;
    }
  }

  lemma {:induction false} JoinLast(lines: seq<string>)
    requires |lines| > 1
    ensures Join(lines, '\n') == Join(lines[..|lines| - 1], '\n') + (['\n'] + lines[|lines| - 1])
  {
    var init, tail := lines[..|lines| - 1], lines[1..];
    if |lines| > 2 {
      JoinLast(tail);
      assert init[1..] == tail[..|tail| - 1];
    } else {
      assert init == [lines[0]] && tail == [lines[1]];
    }
  }

  lemma {:induction false} UnlinesJoin(lines: seq<string>)
    requires lines != []
    ensures Unlines(lines) == Join(lines, '\n') + ['\n']
  {
    if |lines| > 1 {
      UnlinesJoin(lines[1..]);
    }
  }

  lemma {:induction false} TrimNewlinesIdempotent(s: string)
    ensures TrimNewlines(TrimNewlines(s)) == TrimNewlines(s)
    ensures TrimNewlines(s + "\n") == TrimNewlines(s)
  {
    assert (s + "\n")[..|s|] == s;
    if s != [] && s[|s| - 1] == '\n' {
      TrimNewlinesIdempotent(s[..|s| - 1]);
    }
  }

  /** Whatever plain lines a block collected, its normalised content can be printed again. */
  lemma CollectedIsPrintable(body: seq<string>)
    requires forall l :: l in body ==> PlainLine(l) && '\n' !in l
    ensures var c := NormalizeTrailingNewline(Unlines(body));
            NormalizeTrailingNewline(c) == c && PlainText(c[..|c| - 1])
  {
    var t := TrimNewlines(Unlines(body));
    TrimNewlinesIdempotent(Unlines(body));
    TrimNewlinesIdempotent(t);
    assert (t + "\n")[..|t|] == t;
    EndLine();
    if body != [] {
      UnlinesJoin(body);
      TrimNewlinesIdempotent(Join(body, '\n'));
      var k := TrimNewlinesJoin(body);
      SplitJoin(body[..k], '\n');
    }
  }

  lemma {:induction false} BodyFacts(lines: seq<string>)
    requires forall l :: l in lines ==> Acceptable(l) && '\n' !in l
    ensures forall l :: l in Body(lines) ==> PlainLine(l) && '\n' !in l
  {
    if lines != [] && MarkOf(lines[0]) == Plain {
      BodyFacts(lines[1..]);
    }
  }

  lemma {:induction false} ClosedFilesPrintable(lines: seq<string>)
    requires forall l :: l in lines ==> Acceptable(l) && '\n' !in l
    ensures Printable(ClosedFiles(lines))
  {
    if lines != [] {
      ClosedFilesPrintable(lines[1..]);
      var m := MarkOf(lines[0]);
      if m.Opens? && NextMark(lines[1..]) == Closes {
        BodyFacts(lines[1..]);
        CollectedIsPrintable(Body(lines[1..]));
        HeaderPathFacts(lines[0]);
      }
    }
  }

  lemma HeaderPathFacts(line: string)
    requires MarkOf(line).Opens? && Acceptable(line) && '\n' !in line
    ensures var p := MarkOf(line).path; p != "" && Trimmed(p) && '\n' !in p && ValidPath(p)
  {
    var t := TrimSpace(line);
    TrimSpaceFacts(line);
    var inner := t[|FILE_PREFIX|..|t| - |FILE_SUFFIX|];
    TrimSpaceFacts(inner);
    assert forall c :: c in inner ==> c in t;
  }

  lemma ParsedIsPrintable(output: string)
    ensures ParseText(output).Parsed? ==> Printable(ParseText(output).files) && ParseText(output).files != map[]
  {
    ParseAccounts(output);
    SplitPiecesClean(output, '\n');
    if ParseText(output).Parsed? {
      ClosedFilesPrintable(Split(output, '\n'));
    }
  }

  /** mergeFiles: new files over the previous best. */
  function MergeFiles(newFiles: FileSet, prevFiles: FileSet): FileSet {
    prevFiles + newFiles
  }

  /** Merging and selecting keep file sets printable, so every set a patch run can hold is. */
  lemma MergeAndSelectStayPrintable(newFiles: FileSet, prevFiles: FileSet, kept: set<string>)
    requires Printable(newFiles) && Printable(prevFiles)
    ensures forall p :: p in MergeFiles(newFiles, prevFiles) <==> p in newFiles || p in prevFiles
    ensures forall p :: p in newFiles ==> MergeFiles(newFiles, prevFiles)[p] == newFiles[p]
    ensures forall p :: p in prevFiles && p !in newFiles ==> MergeFiles(newFiles, prevFiles)[p] == prevFiles[p]
    ensures Printable(MergeFiles(newFiles, prevFiles))
    ensures Printable(map p | p in prevFiles && p in kept :: prevFiles[p])
  {
  }

  /** Parse, print, parse: the second parse returns what the first one did, with nothing dropped. */
  lemma ParsePrintParse(output: string, intro: string, paths: seq<string>, tail: string)
    requires ParseText(output).Parsed?
    requires PlainText(intro) && PlainText(tail) && Enumerates(paths, ParseText(output).files)
    ensures ParseText(PatchMessage(intro, paths, ParseText(output).files, tail))
            == Parsed(ParseText(output).files, [], false)
  {
    ParsedIsPrintable(output);
    PrintThenParse(intro, paths, ParseText(output).files, tail);
  }
}
