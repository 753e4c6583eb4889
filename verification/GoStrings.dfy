/**
 The parts of Go's strings package the models need, on sequences of Unicode scalar values.
 Text is taken to be valid UTF-8, so that trimming by rune is trimming by element.
 */
module GoStrings {
  /** unicode.IsSpace */
  predicate IsSpace(c: char) {
    || '\t' <= c <= '\r' || c == ' '
    || c == '\U{85}' || c == '\U{A0}' || c == '\U{1680}' || '\U{2000}' <= c <= '\U{200A}'
    || c == '\U{2028}' || c == '\U{2029}' || c == '\U{202F}' || c == '\U{205F}' || c == '\U{3000}'
  }

  function TrimLeft(s: string): string {
    if s != [] && IsSpace(s[0]) then TrimLeft(s[1..]) else s
  }

  function TrimRight(s: string): string {
    if s != [] && IsSpace(s[|s| - 1]) then TrimRight(s[..|s| - 1]) else s
  }

  function TrimSpace(s: string): string {
    TrimRight(TrimLeft(s))
  }

  /** No space at either end: what trimming leaves alone. */
  predicate Trimmed(s: string) {
    s == [] || (!IsSpace(s[0]) && !IsSpace(s[|s| - 1]))
  }

  predicate HasSuffix(s: string, suffix: string) {
    |suffix| <= |s| && s[|s| - |suffix|..] == suffix
  }

  lemma {:induction false} TrimRightFacts(s: string)
    ensures TrimRight(s) <= s
    ensures TrimRight(s) == [] || !IsSpace(TrimRight(s)[|TrimRight(s)| - 1])
  {
    if s != [] && IsSpace(s[|s| - 1]) {
      TrimRightFacts(s[..|s| - 1]);
    }
  }

  lemma {:induction false} TrimLeftFacts(s: string)
    ensures HasSuffix(s, TrimLeft(s))
    ensures TrimLeft(s) == [] || !IsSpace(TrimLeft(s)[0])
  {
    if s != [] && IsSpace(s[0]) {
      TrimLeftFacts(s[1..]);
    }
  }

  /** Trimming yields trimmed text made of the original characters, and fixes trimmed text. */
  lemma {:induction false} TrimSpaceFacts(s: string)
    ensures Trimmed(TrimSpace(s))
    ensures Trimmed(s) ==> TrimSpace(s) == s
    ensures forall c :: c in TrimSpace(s) ==> c in s
    ensures |TrimSpace(s)| <= |s|
  {
    TrimLeftFacts(s);
    TrimRightFacts(TrimLeft(s));
  }

  predicate Blank(s: string) {
    forall c :: c in s ==> IsSpace(c)
  }

  lemma {:induction false} TrimRightIs(s: string) returns (b: string)
    ensures Blank(b) && s == TrimRight(s) + b
  {
    b := [];
    if s != [] && IsSpace(s[|s| - 1]) {
      var init := TrimRightIs(s[..|s| - 1]);
      b := init + [s[|s| - 1]];
    }
  }

  lemma {:induction false} TrimLeftIs(s: string) returns (a: string)
    ensures Blank(a) && s == a + TrimLeft(s)
  {
    a := [];
    if s != [] && IsSpace(s[0]) {
      var rest := TrimLeftIs(s[1..]);
      a := [s[0]] + rest;
    }
  }

  /** Trimming cuts off nothing but spaces, at both ends. */
  lemma TrimSpaceIs(s: string) returns (a: string, b: string)
    ensures Blank(a) && Blank(b) && s == a + TrimSpace(s) + b
  {
    a := TrimLeftIs(s);
    b := TrimRightIs(TrimLeft(s));
  }

  lemma {:induction false} TrimLeftOf(a: string, t: string)
    requires Blank(a) && (t == [] || !IsSpace(t[0]))
    ensures TrimLeft(a + t) == t
  {
    if a == [] {
      assert a + t == t;
    } else {
      assert a[0] in a && (a + t)[1..] == a[1..] + t;
      TrimLeftOf(a[1..], t);
    }
  }

  lemma {:induction false} TrimRightOf(t: string, b: string)
    requires Blank(b) && (t == [] || !IsSpace(t[|t| - 1]))
    ensures TrimRight(t + b) == t
  {
    if b == [] {
      assert t + b == t;
    } else {
      assert b[|b| - 1] in b && (t + b)[..|t + b| - 1] == t + b[..|b| - 1];
      TrimRightOf(t, b[..|b| - 1]);
    }
  }

  /** Every trimmed text comes back from any spaces around it. */
  lemma TrimSpaceOf(a: string, t: string, b: string)
    requires Blank(a) && Trimmed(t) && Blank(b)
    ensures TrimSpace(a + t + b) == t
  {
    if t == [] {
      TrimLeftOf(a + b, []);
      assert a + b + [] == a + t + b;
    } else {
      assert a + t + b == a + (t + b) && (t + b)[0] == t[0];
      TrimLeftOf(a, t + b);
      TrimRightOf(t, b);
    }
  }

  /** strings.Split on a one-character separator: never empty, |pieces| - 1 separators. */
  function Split(s: string, sep: char): (pieces: seq<string>)
    ensures pieces != []
  {
    if s == [] then [[]]
    else if s[0] == sep then [[]] + Split(s[1..], sep)
    else var rest := Split(s[1..], sep); [[s[0]] + rest[0]] + rest[1..]
  }

  function Join(pieces: seq<string>, sep: char): string {
    if pieces == [] then []
    else if |pieces| == 1 then pieces[0]
    else pieces[0] + [sep] + Join(pieces[1..], sep)
  }

  lemma {:induction false} SplitPiecesClean(s: string, sep: char)
    ensures forall p :: p in Split(s, sep) ==> sep !in p
    ensures forall p, c :: p in Split(s, sep) && c in p ==> c in s
  {
    if s != [] {
      SplitPiecesClean(s[1..], sep);
      var rest := Split(s[1..], sep);
      if s[0] != sep {
        assert rest[0] in rest;
      }
    }
  }

  lemma {:induction false} SplitWithout(s: string, sep: char)
    requires sep !in s
    ensures Split(s, sep) == [s]
  {
    if s != [] {
      SplitWithout(s[1..], sep);
      assert [s[0]] + s[1..] == s;
    }
  }

  /** Splitting a text in two at a separator splits its pieces in two. */
  lemma {:induction false} SplitConcat(a: string, b: string, sep: char)
    ensures Split(a + [sep] + b, sep) == Split(a, sep) + Split(b, sep)
  {
    if a == [] {
      assert a + [sep] + b == [sep] + b;
      assert ([sep] + b)[1..] == b;
    } else {
      assert (a + [sep] + b)[1..] == a[1..] + [sep] + b;
      SplitConcat(a[1..], b, sep);
    }
  }

  lemma {:induction false} SplitJoin(pieces: seq<string>, sep: char)
    requires pieces != [] && forall p :: p in pieces ==> sep !in p
    ensures Split(Join(pieces, sep), sep) == pieces
  {
    SplitWithout(pieces[0], sep);
    if |pieces| > 1 {
      SplitConcat(pieces[0], Join(pieces[1..], sep), sep);
      SplitJoin(pieces[1..], sep);
    }
  }
}
