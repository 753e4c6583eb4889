/** Headings, fences, contents and line ends of a specification, written out as the text they are read from. */
module SpecText {
  import opened GoStrings
  import opened SpecParser
  import opened Wrappers

  function Repeat(c: char, n: nat): string {
    seq(n, _ => c)
  }

  /** n hashes, a space and the text, with spaces around each. */
  ghost predicate HeadingWith(line: string, n: nat, text: string) {
    1 <= n <= 6 && text != "" && Trimmed(text)
    && exists a, b, c :: Blank(a) && Blank(b) && Blank(c) && line == a + (Repeat('#', n) + " " + (b + text)) + c
  }

  lemma {:induction false} HashesOf(n: nat, rest: string)
    requires rest == [] || rest[0] != '#'
    ensures Hashes(Repeat('#', n) + rest) == n
  {
    if n > 0 {
      assert (Repeat('#', n) + rest)[1..] == Repeat('#', n - 1) + rest;
      HashesOf(n - 1, rest);
    } else {
      assert Repeat('#', 0) + rest == rest;
    }
  }

  lemma CoreReads(core: string, n: nat, b: string, text: string)
    requires 1 <= n && text != "" && Trimmed(text) && Blank(b) && core == Repeat('#', n) + (" " + (b + text))
    ensures Trimmed(core) && Hashes(core) == n && |core| > n && core[n] == ' ' && TrimSpace(core[n..]) == text
  {
    assert core[0] == '#' && core[|core| - 1] == text[|text| - 1];
    HashesOf(n, " " + (b + text));
    assert core[n..] == (" " + b) + text + "";
    TrimSpaceOf(" " + b, text, "");
  }

  lemma HeadingReads(line: string, n: nat, text: string)
    requires HeadingWith(line, n, text)
    ensures HeadingOf(line) == Some((n, text))
  {
    var a, b, c :| Blank(a) && Blank(b) && Blank(c) && line == a + (Repeat('#', n) + " " + (b + text)) + c;
    var core := Repeat('#', n) + " " + (b + text);
    assert core == Repeat('#', n) + (" " + (b + text));
    CoreReads(core, n, b, text);
    TrimSpaceOf(a, core, c);
  }

  lemma HeadingFound(line: string)
    requires HeadingOf(line).Some?
    ensures HeadingWith(line, HeadingOf(line).value.0, HeadingOf(line).value.1)
  {
    var t := TrimSpace(line);
    var n := Hashes(t);
    var text := TrimSpace(t[n..]);
    var a, c := TrimSpaceIs(line);
    TrimSpaceFacts(line);
    TrimSpaceFacts(t[n..]);
    var b := AfterHashes(t, n, text);
    assert line == a + (Repeat('#', n) + " " + (b + text)) + c;
  }

  lemma SpaceAtEnd(z: string, y: string)
    ensures Blank(y) && Trimmed(z + y) ==> y == ""
  {
    if y != "" {
      assert (z + y)[|z + y| - 1] == y[|y| - 1];
      assert y[|y| - 1] in y;
    }
  }

  lemma AfterHashes(t: string, n: nat, text: string) returns (b: string)
    requires Trimmed(t) && n == Hashes(t) < |t| && t[n] == ' ' && text == TrimSpace(t[n..]) != ""
    ensures Blank(b) && t == Repeat('#', n) + " " + (b + text)
  {
    var x, y := TrimSpaceIs(t[n..]);
    SpaceAtEnd(t[..n] + x + text, y);
    assert t == t[..n] + x + text + y;
    assert t[n..] == x + text;
    TrimSpaceFacts(t[n..]);
    assert x != "";
    assert x[0] == ' ';
    b := x[1..];
    assert t == t[..n] + t[n..] && t[..n] == Repeat('#', n);
    assert x == " " + b;
  }

  /** A line is a heading exactly when it is written as one. */
  lemma HeadingIff(line: string, n: nat, text: string)
    ensures HeadingOf(line) == Some((n, text)) <==> HeadingWith(line, n, text)
  {
    if HeadingOf(line).Some? {
      HeadingFound(line);
    }
    if HeadingWith(line, n, text) {
      HeadingReads(line, n, text);
    }
  }

  // ---- fences ----

  /** Three backquotes or three tildes, after any spaces. */
  ghost predicate FenceWith(line: string) {
    exists a, r :: Blank(a) && (line == a + "```" + r || line == a + "~~~" + r)
  }

  lemma {:induction false} TrimRightKeeps(s: string, r: string)
    requires s != "" && !IsSpace(s[|s| - 1])
    ensures s <= TrimRight(s + r)
  {
    if r != "" && IsSpace(r[|r| - 1]) {
      assert (s + r)[..|s + r| - 1] == s + r[..|r| - 1];
      TrimRightKeeps(s, r[..|r| - 1]);
    } else {
      assert r == "" ==> s + r == s;
    }
  }

  lemma FenceReads(a: string, mark: string, r: string)
    requires Blank(a) && mark != "" && !IsSpace(mark[0]) && !IsSpace(mark[|mark| - 1])
    ensures mark <= TrimSpace(a + mark + r)
  {
    assert a + mark + r == a + (mark + r) && (mark + r)[0] == mark[0];
    TrimLeftOf(a, mark + r);
    TrimRightKeeps(mark, r);
  }

  lemma FenceIff(line: string)
    ensures FenceLine(line) <==> FenceWith(line)
  {
    if FenceLine(line) {
      var t := TrimSpace(line);
      var a, b := TrimSpaceIs(line);
      var mark := if "```" <= t then "```" else "~~~";
      assert line == a + mark + (t[3..] + b);
    }
    if FenceWith(line) {
      var a, r :| Blank(a) && (line == a + "```" + r || line == a + "~~~" + r);
      FenceReads(a, if line == a + "```" + r then "```" else "~~~", r);
    }
  }

  /** Fence lines among the first n. */
  function Fences(lines: seq<string>, n: nat): nat
    requires n <= |lines|
  {
    if n == 0 then 0 else Fences(lines, n - 1) + if FenceLine(lines[n - 1]) then 1 else 0
  }

  /** Inside a fenced block means after an odd number of fence lines. */
  lemma {:induction false} FencedIff(lines: seq<string>, n: nat)
    requires n <= |lines|
    ensures FencedAfter(lines, n) <==> Fences(lines, n) % 2 == 1
  {
    if n > 0 {
      FencedIff(lines, n - 1);
    }
  }

  // ---- contents ----

  /** A content is the text of its lines with nothing but spaces cut off at both ends. */
  lemma ContentIs(lines: seq<string>, start: nat, end: nat) returns (a: string, b: string)
    requires start < end <= |lines|
    ensures Blank(a) && Blank(b) && Join(lines[start..end], '\n') == a + CollectContent(lines, start, end) + b
    ensures Trimmed(CollectContent(lines, start, end))
  {
    a, b := TrimSpaceIs(Join(lines[start..end], '\n'));
    TrimSpaceFacts(Join(lines[start..end], '\n'));
  }

  // ---- line ends ----

  /** The text with every newline written as carriage return and newline. */
  function WithCRLF(t: string): string {
    if t == "" then "" else (if t[0] == '\n' then "\r\n" else [t[0]]) + WithCRLF(t[1..])
  }

  lemma {:induction false} NormalizeCRLF(t: string)
    requires '\r' !in t
    ensures Normalize(WithCRLF(t)) == t && Normalize(t) == t
  {
    if t != "" {
      assert t[0] in t && forall c :: c in t[1..] ==> c in t;
      NormalizeCRLF(t[1..]);
      var rest := WithCRLF(t[1..]);
      if t[0] == '\n' {
        assert ("\r\n" + rest)[2..] == rest;
      } else {
        assert ([t[0]] + rest)[1..] == rest;
      }
    }
  }

  lemma {:induction false} TrimsFinalNewlines(t: string, n: nat)
    requires t == "" || t[|t| - 1] != '\n'
    ensures TrimNewlines(t + Repeat('\n', n)) == t
  {
    if n == 0 {
      assert t + Repeat('\n', 0) == t;
    } else {
      assert (t + Repeat('\n', n))[..|t| + n - 1] == t + Repeat('\n', n - 1);
      TrimsFinalNewlines(t, n - 1);
    }
  }

  /** Neither the way lines end nor the number of final newlines changes the lines read. */
  lemma LinesAre(t: string, n: nat)
    requires '\r' !in t && (t == "" || t[|t| - 1] != '\n')
    ensures SpecLines(t + Repeat('\n', n)) == Split(t, '\n')
    ensures SpecLines(WithCRLF(t + Repeat('\n', n))) == Split(t, '\n')
  {
    NormalizeCRLF(t + Repeat('\n', n));
    TrimsFinalNewlines(t, n);
  }
}
