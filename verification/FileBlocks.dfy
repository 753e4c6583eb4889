/**
 The file-block language of model output: `=== FILE: path ===` ... `=== END FILE ===`.
 The line-driven parser, and what its result says about the lines.
 */
module FileBlocks {
  import opened GoStrings

  const FILE_PREFIX := "=== FILE: "
  const FILE_SUFFIX := " ==="
  const FILE_END := "=== END FILE ==="
  const UNCHANGED_PREFIX := "=== UNCHANGED: "
  const UNCHANGED_SUFFIX := " ==="
  /** Both the prefix and the suffix, sharing one space: the parser's slice has its bounds crossed here. */
  const OVERLAP_LINE := "=== FILE: ==="

  type FileSet = map<string, string>

  datatype Failure =
    | NoFiles
    | PathTraversal(path: string)
    | SliceOutOfRange  // a run-time panic, not an error value

  datatype ParseResult = Parsed(files: FileSet, droppedFiles: seq<string>, truncated: bool) | Failed(failure: Failure)

  // ---- line classification ----

  /** What extractFilePath makes of a trimmed line. */
  datatype Header = NotHeader | HeaderPath(path: string) | Crashes

  function ExtractFilePath(trimmed: string): Header {
    if !(FILE_PREFIX <= trimmed && HasSuffix(trimmed, FILE_SUFFIX)) then NotHeader
    else if |trimmed| - |FILE_SUFFIX| < |FILE_PREFIX| then Crashes
    else
      var path := TrimSpace(trimmed[|FILE_PREFIX|..|trimmed| - |FILE_SUFFIX|]);
      if path == "" then NotHeader else HeaderPath(path)
  }

  /** The slice is in range on every line but one. */
  lemma SliceSafeIff(trimmed: string)
    ensures ExtractFilePath(trimmed) == Crashes <==> trimmed == OVERLAP_LINE
  {
    if ExtractFilePath(trimmed) == Crashes {
      assert trimmed[..10] == FILE_PREFIX;
      assert trimmed[|trimmed| - 4..] == FILE_SUFFIX;
      assert trimmed[|trimmed| - 4] == ' ' && trimmed[|trimmed| - 3] == '=';
      assert trimmed[3] == ' ' && trimmed[7] == 'E' && trimmed[8] == ':';
      assert |trimmed| == 13;
      assert trimmed == trimmed[..10] + trimmed[10..13];
      assert trimmed[10..13] == FILE_SUFFIX[1..];
    }
  }

  predicate IsUnchangedMarker(trimmed: string) {
    UNCHANGED_PREFIX <= trimmed && HasSuffix(trimmed, UNCHANGED_SUFFIX)
  }

  // ---- path validation ----

  /** Lexical cleaning of a relative path's components: "." and "" vanish, ".." cancels a name before it. */
  function Clean(parts: seq<string>, kept: seq<string>): seq<string> {
    if parts == [] then kept
    else
      var p := parts[0];
      if p == "" || p == "." then Clean(parts[1..], kept)
      else if p == ".." && kept != [] && kept[|kept| - 1] != ".." then Clean(parts[1..], kept[..|kept| - 1])
      else Clean(parts[1..], kept + [p])
  }

  predicate ValidPath(path: string) {
    !("/" <= path) && ".." !in Clean(Split(path, '/'), [])
  }

  /** How deep below the starting directory a walk along the components ends up, or -1 once it has left it. */
  function Depth(parts: seq<string>, depth: int): int {
    if depth < 0 || parts == [] then depth
    else
      var p := parts[0];
      Depth(parts[1..], if p == "" || p == "." then depth else if p == ".." then depth - 1 else depth + 1)
  }

  /** Cleaning leaves a ".." behind exactly for the walks that at some point step above their start. */
  lemma {:induction false} CleanFindsEscape(parts: seq<string>, kept: seq<string>)
    requires ".." !in kept
    ensures ".." in Clean(parts, kept) <==> Depth(parts, |kept|) < 0
  {
    if parts != [] {
      var p := parts[0];
      if p == "" || p == "." {
        CleanFindsEscape(parts[1..], kept);
      } else if p == ".." && kept != [] {
        CleanFindsEscape(parts[1..], kept[..|kept| - 1]);
      } else if p == ".." {
        EscapeStays(parts[1..], kept + [p]);
      } else {
        CleanFindsEscape(parts[1..], kept + [p]);
      }
    }
  }

  lemma {:induction false} EscapeStays(parts: seq<string>, kept: seq<string>)
    requires kept != [] && kept[0] == ".."
    ensures ".." in Clean(parts, kept)
  {
    if parts != [] {
      var p := parts[0];
      if p == "" || p == "." {
        EscapeStays(parts[1..], kept);
      } else if p == ".." && kept[|kept| - 1] != ".." {
        EscapeStays(parts[1..], kept[..|kept| - 1]);
      } else {
        EscapeStays(parts[1..], kept + [p]);
      }
    }
  }

  /** A path is accepted exactly when it is relative and never climbs above the directory it starts in. */
  lemma ValidPathStaysInside(path: string)
    ensures ValidPath(path) <==> !("/" <= path) && Depth(Split(path, '/'), 0) >= 0
  {
    CleanFindsEscape(Split(path, '/'), []);
  }

  // ---- content ----

  function TrimNewlines(s: string): string {
    if s != [] && s[|s| - 1] == '\n' then TrimNewlines(s[..|s| - 1]) else s
  }

  function NormalizeTrailingNewline(s: string): string {
    TrimNewlines(s) + "\n"
  }

  /** The lines as the block collects them: each followed by a newline. */
  function Unlines(lines: seq<string>): string {
    if lines == [] then [] else lines[0] + "\n" + Unlines(lines[1..])
  }

  // ---- the line machine ----

  /** Where the scan stands; path "" means outside every block. */
  datatype Scan = Scan(files: FileSet, dropped: seq<string>, path: string, content: string) | Stopped(failure: Failure)

  function Step(s: Scan, line: string): Scan {
    match s
    case Stopped(_) => s
    case Scan(files, dropped, path, content) =>
      var trimmed := TrimSpace(line);
      if path == "" && IsUnchangedMarker(trimmed) then s
      else
        match ExtractFilePath(trimmed)
        case Crashes => Stopped(SliceOutOfRange)
        case HeaderPath(p) =>
          if !ValidPath(p) then Stopped(PathTraversal(p))
          else Scan(files, if path != "" then dropped + [path] else dropped, p, "")
        case NotHeader =>
          if trimmed == FILE_END && path != "" then
            Scan(files[path := NormalizeTrailingNewline(content)], dropped, "", "")
          else if path != "" then Scan(files, dropped, path, content + line + "\n")
          else s
  }

  function ScanLines(s: Scan, lines: seq<string>): Scan {
    if lines == [] then s else Step(ScanLines(s, lines[..|lines| - 1]), lines[|lines| - 1])
  }

  const START := Scan(map[], [], "", "")

  function Finish(s: Scan): ParseResult {
    match s
    case Stopped(f) => Failed(f)
    case Scan(files, dropped, path, _) =>
      if files == map[] then Failed(NoFiles)
      else Parsed(files, if path != "" then dropped + [path] else dropped, path != "")
  }

  /** What parsing a text yields. */
  function ParseText(output: string): ParseResult {
    Finish(ScanLines(START, Split(output, '\n')))
  }

  datatype LineEffect =
    | Continue(dropped: seq<string>, path: string, content: string, closed: bool)
    | Abort(failure: Failure)

  function Apply(e: LineEffect, files: FileSet, path: string, content: string): Scan {
    match e
    case Abort(f) => Stopped(f)
    case Continue(d, p, c, closed) =>
      Scan(if closed then files[path := NormalizeTrailingNewline(content)] else files, d, p, c)
  }

  /** One line of the loop body: the block variables afterwards, and whether a block was just closed. */
  method ReadLine(line: string, droppedFiles: seq<string>, currentPath: string, currentContent: string)
    returns (e: LineEffect)
    ensures forall files :: Step(Scan(files, droppedFiles, currentPath, currentContent), line)
                            == Apply(e, files, currentPath, currentContent)
  {
    var trimmed := TrimSpace(line);
    if currentPath == "" && IsUnchangedMarker(trimmed) {
      return Continue(droppedFiles, currentPath, currentContent, false);
    }
    match ExtractFilePath(trimmed) {
      case Crashes => return Abort(SliceOutOfRange);
      case HeaderPath(path) =>
        if !ValidPath(path) {
          return Abort(PathTraversal(path));
        }
        return Continue(if currentPath != "" then droppedFiles + [currentPath] else droppedFiles, path, "", false);
      case NotHeader =>
    }
    if trimmed == FILE_END && currentPath != "" {
      return Continue(droppedFiles, "", "", true);
    }
    if currentPath != "" {
      return Continue(droppedFiles, currentPath, currentContent + line + "\n", false);
    }
    return Continue(droppedFiles, currentPath, currentContent, false);
  }

  /** The parser's loop over its running variables. */
  method ParseFilesWithMetadata(output: string) returns (r: ParseResult)
    ensures r == ParseText(output)
  {
    var files: FileSet := map[];
    var droppedFiles: seq<string> := [];
    var lines := Split(output, '\n');
    var currentPath, currentContent := "", "";
    for i := 0 to |lines|
      invariant ScanLines(START, lines[..i]) == Scan(files, droppedFiles, currentPath, currentContent)
    {
      assert lines[..i + 1][..i] == lines[..i];
      var effect := ReadLine(lines[i], droppedFiles, currentPath, currentContent);
      if effect.Abort? {
        StoppedStays(lines, i + 1);
        return Failed(effect.failure);
      }
      if effect.closed {
        files := files[currentPath := NormalizeTrailingNewline(currentContent)];
      }
      droppedFiles, currentPath, currentContent := effect.dropped, effect.path, effect.content;
    }
    assert lines[..|lines|] == lines;
    var truncated := currentPath != "";
    if truncated {
      droppedFiles := droppedFiles + [currentPath];
    }
    if files == map[] {
      return Failed(NoFiles);
    }
    return Parsed(files, droppedFiles, truncated);
  }

  lemma {:induction false} StoppedStays(lines: seq<string>, i: nat)
    requires i <= |lines| && ScanLines(START, lines[..i]).Stopped?
    ensures ScanLines(START, lines) == ScanLines(START, lines[..i])
    decreases |lines| - i
  {
    if i < |lines| {
      assert lines[..i + 1][..i] == lines[..i];
      StoppedStays(lines, i + 1);
    } else {
      assert lines[..i] == lines;
    }
  }

  lemma {:induction false} ScanConcat(s: Scan, a: seq<string>, b: seq<string>)
    ensures ScanLines(s, a + b) == ScanLines(ScanLines(s, a), b)
  {
    if b == [] {
      assert a + b == a;
    } else {
      assert (a + b)[..|a + b| - 1] == a + b[..|b| - 1];
      ScanConcat(s, a, b[..|b| - 1]);
    }
  }

  lemma ScanFirst(s: Scan, lines: seq<string>)
    requires lines != []
    ensures ScanLines(s, lines) == ScanLines(Step(s, lines[0]), lines[1..])
  {
    assert lines == lines[..1] + lines[1..];
    ScanConcat(s, lines[..1], lines[1..]);
    assert lines[..1][..0] == [];
  }

  // ---- accounting: what the text itself says about its blocks ----

  datatype Mark = Plain | Opens(path: string) | Closes

  /** The role of a line, whatever stands before it. */
  function MarkOf(line: string): Mark {
    var trimmed := TrimSpace(line);
    match ExtractFilePath(trimmed)
    case HeaderPath(p) => Opens(p)
    case _ => if trimmed == FILE_END then Closes else Plain
  }

  /** The parser neither crashes on the line nor rejects its path. */
  predicate Acceptable(line: string) {
    var h := ExtractFilePath(TrimSpace(line));
    h != Crashes && (h.HeaderPath? ==> ValidPath(h.path))
  }

  /** The first line that is not plain; Plain when there is none. */
  function NextMark(lines: seq<string>): Mark {
    if lines == [] then Plain
    else if MarkOf(lines[0]) != Plain then MarkOf(lines[0])
    else NextMark(lines[1..])
  }

  /** The last line that is not plain; Plain when there is none. */
  function LastMark(lines: seq<string>): Mark {
    if lines == [] then Plain
    else if MarkOf(lines[|lines| - 1]) != Plain then MarkOf(lines[|lines| - 1])
    else LastMark(lines[..|lines| - 1])
  }

  /** The plain lines before the first mark. */
  function Body(lines: seq<string>): seq<string> {
    if lines == [] || MarkOf(lines[0]) != Plain then [] else [lines[0]] + Body(lines[1..])
  }

  /** Paths of the headers whose next mark is not an end marker, in text order. */
  function Unclosed(lines: seq<string>): seq<string> {
    if lines == [] then []
    else
      var m := MarkOf(lines[0]);
      (if m.Opens? && NextMark(lines[1..]) != Closes then [m.path] else []) + Unclosed(lines[1..])
  }

  /** The headers whose next mark is an end marker, each with the lines in between; a later block wins. */
  function ClosedFiles(lines: seq<string>): FileSet {
    if lines == [] then map[]
    else
      var m := MarkOf(lines[0]);
      (if m.Opens? && NextMark(lines[1..]) == Closes
       then map[m.path := NormalizeTrailingNewline(Unlines(Body(lines[1..])))] else map[]) + ClosedFiles(lines[1..])
  }

  function CountClosed(lines: seq<string>): nat {
    if lines == [] then 0
    else (if MarkOf(lines[0]).Opens? && NextMark(lines[1..]) == Closes then 1 else 0) + CountClosed(lines[1..])
  }

  function CountHeaders(lines: seq<string>): nat {
    if lines == [] then 0 else (if MarkOf(lines[0]).Opens? then 1 else 0) + CountHeaders(lines[1..])
  }

  lemma UnchangedIsPlain(line: string)
    requires IsUnchangedMarker(TrimSpace(line))
    ensures MarkOf(line) == Plain && ExtractFilePath(TrimSpace(line)) == NotHeader
  {
    var t := TrimSpace(line);
    assert t[4] == UNCHANGED_PREFIX[4] == 'U';
    assert FILE_PREFIX[4] == 'F' && FILE_END[4] == 'E';
  }

  lemma HeaderPathNonempty(line: string)
    ensures MarkOf(line).Opens? ==> MarkOf(line).path != ""
  {
  }

  /** One line's effect, read off its mark. */
  lemma StepByMark(s: Scan, line: string)
    requires s.Scan?
    ensures Step(s, line) ==
            if !Acceptable(line) then Step(s, line)
            else match MarkOf(line)
              case Opens(p) => Scan(s.files, if s.path != "" then s.dropped + [s.path] else s.dropped, p, "")
              case Closes =>
                if s.path != "" then Scan(s.files[s.path := NormalizeTrailingNewline(s.content)], s.dropped, "", "")
                else s
              case Plain => if s.path != "" then Scan(s.files, s.dropped, s.path, s.content + line + "\n") else s
    ensures Step(s, line).Stopped? <==> !Acceptable(line)
  {
    if IsUnchangedMarker(TrimSpace(line)) {
      UnchangedIsPlain(line);
    }
  }

  /** "=== FILE: path ===" around a path with any spaces about it. */
  ghost predicate HeaderWith(trimmed: string, path: string) {
    path != "" && Trimmed(path)
    && exists a, b :: Blank(a) && Blank(b) && trimmed == "=== FILE: " + (a + path + b) + " ==="
  }

  lemma HeaderFound(t: string, path: string)
    requires ExtractFilePath(t) == HeaderPath(path)
    ensures HeaderWith(t, path)
  {
    var inner := t[10..|t| - 4];
    var a, b := TrimSpaceIs(inner);
    TrimSpaceFacts(inner);
    SplitHeader(t, inner);
    assert t == "=== FILE: " + (a + path + b) + " ===";
  }

  lemma SplitHeader(t: string, inner: string)
    requires |t| >= 14 && FILE_PREFIX <= t && HasSuffix(t, FILE_SUFFIX) && inner == t[10..|t| - 4]
    ensures t == "=== FILE: " + inner + " ==="
  {
    assert t == t[..10] + inner + t[|t| - 4..];
  }

  lemma EndIsNoHeader(t: string)
    requires t == "=== END FILE ==="
    ensures ExtractFilePath(t) == NotHeader
  {
    assert t[4] == 'E' && FILE_PREFIX[4] == 'F';
  }

  /** What a line is, letter by letter. */
  lemma MarkIff(line: string, path: string)
    ensures MarkOf(line) == Opens(path) <==> HeaderWith(TrimSpace(line), path)
    ensures MarkOf(line) == Closes <==> TrimSpace(line) == "=== END FILE ==="
  {
    var t := TrimSpace(line);
    if t == "=== END FILE ===" {
      EndIsNoHeader(t);
    }
    if ExtractFilePath(t) == HeaderPath(path) {
      HeaderFound(t, path);
    }
    if HeaderWith(t, path) {
      var a, b :| Blank(a) && Blank(b) && t == "=== FILE: " + (a + path + b) + " ===";
      HeaderReads(t, a, path, b);
    }
  }

  /** The lines that neither crash the parser nor name a path that leaves the directory. */
  lemma AcceptableIff(line: string)
    ensures Acceptable(line) <==>
        TrimSpace(line) != "=== FILE: ===" && forall path :: HeaderWith(TrimSpace(line), path) ==> ValidPath(path)
  {
    SliceSafeIff(TrimSpace(line));
    forall path {
      MarkIff(line, path);
    }
  }

  lemma HeaderReads(t: string, a: string, path: string, b: string)
    requires path != "" && Trimmed(path) && Blank(a) && Blank(b)
    requires t == "=== FILE: " + (a + path + b) + " ==="
    ensures ExtractFilePath(t) == HeaderPath(path)
  {
    assert t[..10] == FILE_PREFIX && t[|t| - 4..] == FILE_SUFFIX;
    assert t[10..|t| - 4] == a + path + b;
    TrimSpaceOf(a, path, b);
  }

  /** Scanning succeeds exactly when every line is acceptable. */
  lemma {:induction false} ScanSucceedsIff(s: Scan, lines: seq<string>)
    requires s.Scan?
    ensures ScanLines(s, lines).Scan? <==> forall l :: l in lines ==> Acceptable(l)
  {
    if lines != [] {
      var init, last := lines[..|lines| - 1], lines[|lines| - 1];
      assert lines == init + [last];
      ScanSucceedsIff(s, init);
      if ScanLines(s, init).Scan? {
        StepByMark(ScanLines(s, init), last);
      }
    }
  }

  function Pending(s: Scan): seq<string>
    requires s.Scan?
  {
    if s.path != "" then s.dropped + [s.path] else s.dropped
  }

  /** The open block, when its next mark does not end it. */
  function OpenDropped(s: Scan, lines: seq<string>): seq<string>
    requires s.Scan?
  {
    if s.path != "" && NextMark(lines) != Closes then [s.path] else []
  }

  /** The open block, when its next mark ends it. */
  function OpenFile(s: Scan, lines: seq<string>): FileSet
    requires s.Scan?
  {
    if s.path != "" && NextMark(lines) == Closes
    then map[s.path := NormalizeTrailingNewline(s.content + Unlines(Body(lines)))]
    else map[]
  }

  ghost predicate SameAccount(s: Scan, lines: seq<string>, s': Scan, rest: seq<string>) {
    && s.Scan? && s'.Scan?
    && s'.dropped + OpenDropped(s', rest) + Unclosed(rest) == s.dropped + OpenDropped(s, lines) + Unclosed(lines)
    && s'.files + OpenFile(s', rest) + ClosedFiles(rest) == s.files + OpenFile(s, lines) + ClosedFiles(lines)
  }

  lemma AccountOpens(s: Scan, lines: seq<string>, path: string)
    requires s.Scan? && lines != [] && MarkOf(lines[0]) == Opens(path) && path != ""
    ensures SameAccount(s, lines, Scan(s.files, Pending(s), path, ""), lines[1..])
  {
    var rest := lines[1..];
    var s' := Scan(s.files, Pending(s), path, "");
    HeaderAccounts(s', lines);
    PendingSplit(s, lines);
    SplitAccount(s.files, s.dropped, OpenDropped(s, lines), OpenFile(s', rest), ClosedFiles(rest),
                 OpenDropped(s', rest), Unclosed(rest));
  }

  /** A header's block is the open block of the lines after it. */
  lemma HeaderAccounts(s: Scan, lines: seq<string>)
    requires s.Scan? && lines != [] && MarkOf(lines[0]) == Opens(s.path) && s.path != "" && s.content == ""
    ensures ClosedFiles(lines) == OpenFile(s, lines[1..]) + ClosedFiles(lines[1..])
    ensures Unclosed(lines) == OpenDropped(s, lines[1..]) + Unclosed(lines[1..])
  {
    assert "" + Unlines(Body(lines[1..])) == Unlines(Body(lines[1..]));
  }

  lemma PendingSplit(s: Scan, lines: seq<string>)
    requires s.Scan? && lines != [] && MarkOf(lines[0]).Opens?
    ensures Pending(s) == s.dropped + OpenDropped(s, lines) && OpenFile(s, lines) == map[]
  {
  }

  lemma SplitAccount(files: FileSet, dropped: seq<string>, pending: seq<string>,
                     file: FileSet, more: FileSet, open: seq<string>, later: seq<string>)
    ensures files + map[] + (file + more) == files + file + more
    ensures dropped + pending + (open + later) == dropped + pending + open + later
  {
  }

  lemma AccountCloses(s: Scan, lines: seq<string>)
    requires s.Scan? && lines != [] && MarkOf(lines[0]) == Closes
    ensures var s' := if s.path == "" then s
                      else Scan(s.files[s.path := NormalizeTrailingNewline(s.content)], s.dropped, "", "");
            SameAccount(s, lines, s', lines[1..])
  {
    NoHeaderAccounts(lines);
    EndAccounts(s, lines);
    PutAsOverlay(s.files, s.path, NormalizeTrailingNewline(s.content), ClosedFiles(lines));
  }

  lemma PutAsOverlay(files: FileSet, path: string, content: string, more: FileSet)
    ensures files[path := content] + map[] + more == files + map[path := content] + more
    ensures files + map[] + more == files + more
  {
    assert files[path := content] == files + map[path := content];
  }

  /** A line that is no header adds nothing of its own. */
  lemma NoHeaderAccounts(lines: seq<string>)
    requires lines != [] && !MarkOf(lines[0]).Opens?
    ensures ClosedFiles(lines) == ClosedFiles(lines[1..]) && Unclosed(lines) == Unclosed(lines[1..])
  {
    assert map[] + ClosedFiles(lines[1..]) == ClosedFiles(lines[1..]);
    assert [] + Unclosed(lines[1..]) == Unclosed(lines[1..]);
  }

  lemma EndAccounts(s: Scan, lines: seq<string>)
    requires s.Scan? && lines != [] && MarkOf(lines[0]) == Closes
    ensures OpenDropped(s, lines) == []
    ensures OpenFile(s, lines) == if s.path != "" then map[s.path := NormalizeTrailingNewline(s.content)] else map[]
  {
    assert s.content + [] == s.content;
  }

  lemma AccountPlain(s: Scan, lines: seq<string>)
    requires s.Scan? && lines != [] && MarkOf(lines[0]) == Plain
    ensures var s' := if s.path != "" then Scan(s.files, s.dropped, s.path, s.content + lines[0] + "\n") else s;
            SameAccount(s, lines, s', lines[1..])
  {
    var line, more := lines[0], Unlines(Body(lines[1..]));
    assert s.content + (line + "\n" + more) == s.content + line + "\n" + more;
    NoHeaderAccounts(lines);
  }

  /** One line moves the account from the rest of the text into the scan state without changing the total. */
  lemma AccountStep(s: Scan, lines: seq<string>)
    requires s.Scan? && lines != [] && Acceptable(lines[0])
    ensures SameAccount(s, lines, Step(s, lines[0]), lines[1..])
  {
    StepByMark(s, lines[0]);
    match MarkOf(lines[0]) {
      case Opens(p) =>
        HeaderPathNonempty(lines[0]);
        AccountOpens(s, lines, p);
      case Closes => AccountCloses(s, lines);
      case Plain => AccountPlain(s, lines);
    }
  }

  /** From any scan state, the rest of the text decides what becomes of the open block and of every later header. */
  lemma {:induction false} ScanAccounts(s: Scan, lines: seq<string>)
    requires s.Scan? && forall l :: l in lines ==> Acceptable(l)
    ensures var r := ScanLines(s, lines);
            && r.Scan?
            && Pending(r) == s.dropped + OpenDropped(s, lines) + Unclosed(lines)
            && r.files == s.files + OpenFile(s, lines) + ClosedFiles(lines)
    decreases |lines|
  {
    if lines != [] {
      AccountStep(s, lines);
      ScanFirst(s, lines);
      ScanAccounts(Step(s, lines[0]), lines[1..]);
    }
  }

  lemma {:induction false} ScanEndsInBlock(s: Scan, lines: seq<string>)
    requires s.Scan? && forall l :: l in lines ==> Acceptable(l)
    ensures var r := ScanLines(s, lines);
            r.Scan? && (r.path != "" <==> if LastMark(lines) == Plain then s.path != "" else LastMark(lines).Opens?)
  {
    if lines != [] {
      var init, last := lines[..|lines| - 1], lines[|lines| - 1];
      assert lines == init + [last];
      ScanEndsInBlock(s, init);
      StepByMark(ScanLines(s, init), last);
      HeaderPathNonempty(last);
    }
  }

  // ---- which lines make which file ----

  /** Line i opens a block for path that line j closes, with nothing but plain lines between them. */
  ghost predicate BlockAt(lines: seq<string>, i: nat, j: nat, path: string) {
    && i < j < |lines| && MarkOf(lines[i]) == Opens(path) && MarkOf(lines[j]) == Closes
    && forall k :: i < k < j ==> MarkOf(lines[k]) == Plain
  }

  ghost predicate HasBlock(lines: seq<string>, path: string) {
    exists i: nat, j: nat :: BlockAt(lines, i, j, path)
  }

  /** The collected text with all its final newlines cut and one put back. */
  ghost predicate EndsOnce(content: string, collected: string) {
    exists core, cut :: EndsOnceAt(content, collected, core, cut)
  }

  ghost predicate EndsOnceAt(content: string, collected: string, core: string, cut: string) {
    && content == core + "\n" && (core == "" || core[|core| - 1] != '\n')
    && collected == core + cut && forall c :: c in cut ==> c == '\n'
  }

  lemma {:induction false} CutNewlines(s: string) returns (cut: string)
    ensures s == TrimNewlines(s) + cut && forall c :: c in cut ==> c == '\n'
    ensures TrimNewlines(s) == "" || TrimNewlines(s)[|TrimNewlines(s)| - 1] != '\n'
  {
    cut := "";
    if s != [] && s[|s| - 1] == '\n' {
      var init := CutNewlines(s[..|s| - 1]);
      cut := init + "\n";
    }
  }

  lemma NormalizedEndsOnce(s: string)
    ensures EndsOnce(NormalizeTrailingNewline(s), s)
  {
    var cut := CutNewlines(s);
    assert EndsOnceAt(NormalizeTrailingNewline(s), s, TrimNewlines(s), cut);
  }

  /** content is what the last block for path collected. */
  ghost predicate FromLastBlock(lines: seq<string>, path: string, content: string) {
    exists i: nat, j: nat :: LastBlockAt(lines, i, j, path) && EndsOnce(content, Unlines(lines[i + 1..j]))
  }

  ghost predicate LastBlockAt(lines: seq<string>, i: nat, j: nat, path: string) {
    BlockAt(lines, i, j, path) && forall i': nat, j': nat :: BlockAt(lines, i', j', path) ==> i' <= i
  }

  lemma {:induction false} BodyBlock(lines: seq<string>)
    ensures |Body(lines)| <= |lines| && Body(lines) == lines[..|Body(lines)|]
    ensures forall k :: 0 <= k < |Body(lines)| ==> MarkOf(lines[k]) == Plain
    ensures if |Body(lines)| < |lines|
            then MarkOf(lines[|Body(lines)|]) != Plain && NextMark(lines) == MarkOf(lines[|Body(lines)|])
            else NextMark(lines) == Plain
  {
    if lines != [] && MarkOf(lines[0]) == Plain {
      BodyBlock(lines[1..]);
      assert lines[..|Body(lines)|] == [lines[0]] + lines[1..][..|Body(lines[1..])|];
    }
  }

  /** A later block is a block of the rest of the text. */
  lemma BlockLater(lines: seq<string>, i: nat, j: nat, path: string)
    requires lines != [] && BlockAt(lines[1..], i, j, path)
    ensures BlockAt(lines, i + 1, j + 1, path)
  {
    forall k | i + 1 < k < j + 1 ensures MarkOf(lines[k]) == Plain {
      assert lines[1..][k - 1] == lines[k];
    }
  }

  lemma BlockEarlier(lines: seq<string>, i: nat, j: nat, path: string)
    requires lines != [] && i > 0 && BlockAt(lines, i, j, path)
    ensures BlockAt(lines[1..], i - 1, j - 1, path)
  {
    forall k | i - 1 < k < j - 1 ensures MarkOf(lines[1..][k]) == Plain {
      assert lines[1..][k] == lines[k + 1];
    }
  }

  lemma FirstBlockEnds(lines: seq<string>, path: string, j: nat)
    requires lines != [] && BlockAt(lines, 0, j, path)
    ensures j == |Body(lines[1..])| + 1 && NextMark(lines[1..]) == Closes
  {
    var rest := lines[1..];
    BodyBlock(rest);
    assert rest[j - 1] == lines[j];
    assert |Body(rest)| <= j - 1;
    assert rest[|Body(rest)|] == lines[|Body(rest)| + 1];
  }

  lemma FirstBlockIs(lines: seq<string>, path: string)
    requires lines != [] && MarkOf(lines[0]) == Opens(path) && NextMark(lines[1..]) == Closes
    ensures BlockAt(lines, 0, |Body(lines[1..])| + 1, path)
  {
    var rest := lines[1..];
    BodyBlock(rest);
    forall k | 0 < k < |Body(rest)| + 1 ensures MarkOf(lines[k]) == Plain {
      assert rest[k - 1] == lines[k];
    }
  }

  lemma BlockInRest(lines: seq<string>, path: string)
    requires lines != [] && HasBlock(lines, path)
    ensures HasBlock(lines[1..], path) || (MarkOf(lines[0]) == Opens(path) && NextMark(lines[1..]) == Closes)
  {
    var i: nat, j: nat :| BlockAt(lines, i, j, path);
    if i == 0 {
      FirstBlockEnds(lines, path, j);
    } else {
      BlockEarlier(lines, i, j, path);
    }
  }

  lemma BlockOfRest(lines: seq<string>, path: string)
    requires lines != [] && HasBlock(lines[1..], path)
    ensures HasBlock(lines, path)
  {
    var i: nat, j: nat :| BlockAt(lines[1..], i, j, path);
    BlockLater(lines, i, j, path);
  }

  lemma LastLater(lines: seq<string>, i: nat, j: nat, path: string)
    requires lines != [] && LastBlockAt(lines[1..], i, j, path)
    ensures LastBlockAt(lines, i + 1, j + 1, path)
  {
    BlockLater(lines, i, j, path);
    forall i': nat, j': nat | BlockAt(lines, i', j', path) ensures i' <= i + 1 {
      NotAfterLast(lines, i, j, path, i', j');
    }
  }

  lemma NotAfterLast(lines: seq<string>, i: nat, j: nat, path: string, i': nat, j': nat)
    requires lines != [] && LastBlockAt(lines[1..], i, j, path) && BlockAt(lines, i', j', path)
    ensures i' <= i + 1
  {
    if i' > 0 { BlockEarlier(lines, i', j', path); }
  }

  lemma SameLines(lines: seq<string>, i: nat, j: nat)
    requires i < j < |lines| - 1
    ensures lines[1..][i + 1..j] == lines[i + 2..j + 1]
  {
  }

  lemma LastOfRest(lines: seq<string>, path: string, content: string)
    requires lines != [] && FromLastBlock(lines[1..], path, content)
    ensures FromLastBlock(lines, path, content)
  {
    var rest := lines[1..];
    var i: nat, j: nat :| LastBlockAt(rest, i, j, path) && EndsOnce(content, Unlines(rest[i + 1..j]));
    LastLater(lines, i, j, path);
    SameLines(lines, i, j);
  }

  lemma LastIsFirst(lines: seq<string>, path: string)
    requires lines != [] && MarkOf(lines[0]) == Opens(path) && NextMark(lines[1..]) == Closes
    requires !HasBlock(lines[1..], path)
    ensures FromLastBlock(lines, path, NormalizeTrailingNewline(Unlines(Body(lines[1..]))))
  {
    var j := |Body(lines[1..])| + 1;
    FirstBlockIs(lines, path);
    BodyBlock(lines[1..]);
    NormalizedEndsOnce(Unlines(Body(lines[1..])));
    assert lines[1..j] == Body(lines[1..]);
    forall i': nat, j': nat | BlockAt(lines, i', j', path) ensures i' <= 0 {
      if i' > 0 { BlockEarlier(lines, i', j', path); }
    }
    assert LastBlockAt(lines, 0, j, path);
  }

  /** The files are those with a block, each with the lines of its last block. */
  lemma {:induction false} ClosedFilesAre(lines: seq<string>, path: string)
    ensures path in ClosedFiles(lines) <==> HasBlock(lines, path)
    ensures path in ClosedFiles(lines) ==> FromLastBlock(lines, path, ClosedFiles(lines)[path])
  {
    if lines != [] {
      ClosedFilesAre(lines[1..], path);
      if HasBlock(lines, path) {
        BlockInRest(lines, path);
      }
      if path in ClosedFiles(lines[1..]) {
        BlockOfRest(lines, path);
        LastOfRest(lines, path, ClosedFiles(lines[1..])[path]);
      } else if path in ClosedFiles(lines) {
        FirstBlockIs(lines, path);
        LastIsFirst(lines, path);
      }
    }
  }

  /** Every file of files is what its last block in the text says, and every block makes one. */
  ghost predicate FilesOf(lines: seq<string>, files: FileSet) {
    forall path :: (path in files <==> HasBlock(lines, path))
                   && (path in files ==> FromLastBlock(lines, path, files[path]))
  }

  /**
   The parser's accounting, for every text: it succeeds on exactly the texts with acceptable lines and a closed
   block; every header is then either a file or listed as dropped, in order, and the truncation flag says whether
   the text ends inside a block.
   */
  lemma ParseAccounts(output: string)
    ensures var lines := Split(output, '\n');
            var r := ParseText(output);
            && (r.Parsed? <==> (forall l :: l in lines ==> Acceptable(l)) && ClosedFiles(lines) != map[])
            && (r.Parsed? ==>
                  && r.files == ClosedFiles(lines) && FilesOf(lines, r.files)
                  && r.droppedFiles == Unclosed(lines)
                  && (r.truncated <==> LastMark(lines).Opens?)
                  && CountHeaders(lines) == CountClosed(lines) + |r.droppedFiles|)
  {
    var lines := Split(output, '\n');
    ScanSucceedsIff(START, lines);
    if forall l :: l in lines ==> Acceptable(l) {
      StartAccounts(lines);
      HeadersClosedOrDropped(lines);
      forall path {
        ClosedFilesAre(lines, path);
      }
    }
  }

  lemma StartAccounts(lines: seq<string>)
    requires forall l :: l in lines ==> Acceptable(l)
    ensures var r := ScanLines(START, lines);
            r.Scan? && r.files == ClosedFiles(lines) && Pending(r) == Unclosed(lines)
            && (r.path != "" <==> LastMark(lines).Opens?)
  {
    ScanAccounts(START, lines);
    ScanEndsInBlock(START, lines);
    assert map[] + ClosedFiles(lines) == ClosedFiles(lines);
  }

  lemma {:induction false} HeadersClosedOrDropped(lines: seq<string>)
    ensures CountHeaders(lines) == CountClosed(lines) + |Unclosed(lines)|
  {
    if lines != [] {
      HeadersClosedOrDropped(lines[1..]);
    }
  }

  lemma BadLineStops(s: Scan, line: string)
    requires s.Scan? && !Acceptable(line)
    ensures if TrimSpace(line) == OVERLAP_LINE then Step(s, line) == Stopped(SliceOutOfRange)
            else MarkOf(line).Opens? && Step(s, line) == Stopped(PathTraversal(MarkOf(line).path))
  {
    SliceSafeIff(TrimSpace(line));
    if IsUnchangedMarker(TrimSpace(line)) {
      UnchangedIsPlain(line);
    }
  }

  /** A failing parse reports its first unacceptable line. */
  lemma ParseFailsAtFirstBadLine(output: string, k: nat)
    requires var lines := Split(output, '\n');
             k < |lines| && !Acceptable(lines[k]) && forall i :: 0 <= i < k ==> Acceptable(lines[i])
    ensures var line := Split(output, '\n')[k];
            if TrimSpace(line) == OVERLAP_LINE then ParseText(output) == Failed(SliceOutOfRange)
            else MarkOf(line).Opens? && ParseText(output) == Failed(PathTraversal(MarkOf(line).path))
  {
    var lines := Split(output, '\n');
    ScanSucceedsIff(START, lines[..k]);
    BadLineStops(ScanLines(START, lines[..k]), lines[k]);
    assert lines[..k + 1][..k] == lines[..k];
    StoppedStays(lines, k + 1);
  }
}
