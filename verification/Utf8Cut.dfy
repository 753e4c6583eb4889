/** Cutting text at a byte limit without splitting a character; sections 3 and 4 of RFC 3629. */
module Utf8Cut {
  newtype byte = x: int | 0 <= x < 256
  type Bytes = seq<byte>

  predicate Continuation(b: byte) {
    0x80 <= b <= 0xBF
  }

  /** Length of the sequence a lead byte announces; 0 for a byte that starts none. */
  function Announced(b: byte): nat {
    if b <= 0x7F then 1
    else if 0xC2 <= b <= 0xDF then 2
    else if 0xE0 <= b <= 0xEF then 3
    else if 0xF0 <= b <= 0xF4 then 4
    else 0
  }

  /** The second byte rules out overlong forms, surrogates and values past U+10FFFF. */
  predicate SecondFits(lead: byte, second: byte) {
    && Continuation(second)
    && (lead == 0xE0 ==> 0xA0 <= second)
    && (lead == 0xED ==> second <= 0x9F)
    && (lead == 0xF0 ==> 0x90 <= second)
    && (lead == 0xF4 ==> second <= 0x8F)
  }

  /** Length of the character s begins with, 0 if it does not begin with one. */
  function RuneLen(s: Bytes): (n: nat)
    ensures n <= |s| && n <= 4
  {
    if s == [] then 0
    else
      var n := Announced(s[0]);
      if n <= |s|
         && (n >= 2 ==> SecondFits(s[0], s[1]))
         && (n >= 3 ==> Continuation(s[2]))
         && (n >= 4 ==> Continuation(s[3]))
      then n else 0
  }

  /** utf8.ValidString */
  predicate Valid(s: Bytes)
    decreases |s|
  {
    s == [] || (RuneLen(s) > 0 && Valid(s[RuneLen(s)..]))
  }

  /** utf8.RuneStart */
  predicate RuneStart(b: byte) {
    !Continuation(b)
  }

  const UTF_MAX := 4

  /** The last n bytes of p are one character. */
  predicate EndsWithRuneOf(p: Bytes, n: nat) {
    1 <= n <= |p| && RuneLen(p[|p| - n..]) == n
  }

  ghost predicate EndsWithRune(p: Bytes) {
    exists n :: EndsWithRuneOf(p, n)
  }

  lemma RuneShape(s: Bytes)
    requires RuneLen(s) > 0
    ensures RuneStart(s[0]) && (RuneLen(s) > 1 ==> 0xC2 <= s[0])
    ensures forall i :: 1 <= i < RuneLen(s) ==> Continuation(s[i])
    ensures RuneLen(s) == 1 <==> s[0] < 0x80
    ensures RuneLen(s) == Announced(s[0])
  {
  }

  /**
   utf8.DecodeLastRuneInString, as far as its callers look: whether it reports an error of width one. It walks back at
   most UTF_MAX bytes to a lead byte and decodes forward from there.
   */
  method LastRuneBad(p: Bytes) returns (bad: bool)
    requires p != []
    ensures bad <==> !EndsWithRune(p)
  {
    var end := |p|;
    var start := end - 1;
    if p[start] < 0x80 {
      assert EndsWithRuneOf(p, 1);
      return false;
    }
    var lim := if end < UTF_MAX then 0 else end - UTF_MAX;
    start := start - 1;
    while start >= lim && !RuneStart(p[start])
      invariant lim - 1 <= start <= end - 2
      invariant forall i :: start < i < end - 1 ==> Continuation(p[i])
      decreases start - lim + 1
    {
      start := start - 1;
    }
    if start < 0 {
      start := 0;
    }
    bad := start + RuneLen(p[start..]) != end;
    if !bad {
      assert EndsWithRuneOf(p, end - start);
    } else if EndsWithRune(p) {
      var n :| EndsWithRuneOf(p, n);
      RuneFoundAt(p, n, start);
    }
  }

  /** If p ends with a character of n bytes, walking back over continuation bytes stops at its first byte. */
  lemma RuneFoundAt(p: Bytes, n: nat, start: nat)
    requires EndsWithRuneOf(p, n) && p[|p| - 1] >= 0x80 && start < |p|
    requires forall i :: start < i < |p| - 1 ==> Continuation(p[i])
    requires start + 1 < |p| || |p| == 1
    requires RuneStart(p[start]) || start == 0 || start + UTF_MAX < |p|
    ensures start + n == |p|
  {
    var r := p[|p| - n..];
    RuneShape(r);
    assert forall i :: 1 <= i < n ==> r[i] == p[|p| - n + i];
    assert r[0] == p[|p| - n];
  }

  // ---- the loops ----

  /** Where the rune-by-rune trim stops: the longest prefix of at most k bytes, empty or ending with a character. */
  ghost function TrimAt(s: Bytes, k: nat): (r: nat)
    requires k <= |s|
    ensures r <= k && (r == 0 || EndsWithRune(s[..r]))
    ensures forall i :: r < i <= k ==> !EndsWithRune(s[..i])
  {
    if k == 0 || EndsWithRune(s[..k]) then k else TrimAt(s, k - 1)
  }

  /** Where re-validating stops: the longest valid prefix of at most k bytes. */
  function LongestValid(s: Bytes, k: nat): (r: nat)
    requires k <= |s|
    ensures r <= k && Valid(s[..r])
    ensures forall i :: r < i <= k ==> !Valid(s[..i])
  {
    if Valid(s[..k]) then k else assert s[..0] == []; LongestValid(s, k - 1)
  }

  method TrimUTF8Boundary(s: Bytes, limit: nat) returns (r: Bytes)
    ensures r == if |s| <= limit then s else s[..TrimAt(s, limit)]
  {
    if |s| <= limit {
      return s;
    }
    var k: nat := limit;
    while k > 0
      invariant k <= limit && TrimAt(s, k) == TrimAt(s, limit)
    {
      var bad := LastRuneBad(s[..k]);
      if !bad {
        break;
      }
      k := k - 1;
    }
    r := s[..k];
  }

  /** The horizontal ellipsis. */
  const ELLIPSIS: Bytes := [0xE2, 0x80, 0xA6]

  method TruncateObserved(s: Bytes, max: nat) returns (r: Bytes)
    ensures r == if |s| <= max then s else s[..TrimAt(s, max)] + ELLIPSIS
  {
    if |s| <= max {
      return s;
    }
    var k: nat := max;
    while k > 0
      invariant k <= max && TrimAt(s, k) == TrimAt(s, max)
    {
      var bad := LastRuneBad(s[..k]);
      if !bad {
        break;
      }
      k := k - 1;
    }
    r := s[..k] + ELLIPSIS;
  }

  /** The browser step's cut, before its marker is appended. */
  method BrowserCut(s: Bytes, max: nat) returns (r: Bytes)
    ensures r == if |s| <= max then s else s[..LongestValid(s, max)]
  {
    if |s| <= max {
      return s;
    }
    var k: nat := max;
    assert s[..0] == [];
    while !Valid(s[..k])
      invariant k <= max && LongestValid(s, k) == LongestValid(s, max)
      decreases k
    {
      k := k - 1;
    }
    r := s[..k];
  }

  // ---- valid text ----

  lemma RunePrefix(s: Bytes, k: nat)
    requires k <= |s|
    ensures RuneLen(s[..k]) == if RuneLen(s) <= k then RuneLen(s) else 0
  {
    if k > 0 {
      assert s[..k][0] == s[0];
      assert forall i :: 0 <= i < k ==> s[..k][i] == s[i];
      if RuneLen(s) == 0 || RuneLen(s) > k {
        if Announced(s[0]) <= k {
          assert RuneLen(s[..k]) == RuneLen(s);
        }
      }
    }
  }

  lemma {:induction false} ValidEndsWithRune(v: Bytes)
    requires Valid(v) && v != []
    ensures EndsWithRune(v)
    decreases |v|
  {
    var n := RuneLen(v);
    if n == |v| {
      assert v[|v| - n..] == v;
      assert EndsWithRuneOf(v, n);
    } else {
      ValidEndsWithRune(v[n..]);
      var m :| EndsWithRuneOf(v[n..], m);
      assert v[n..][|v| - n - m..] == v[|v| - m..];
      assert EndsWithRuneOf(v, m);
    }
  }

  /** A character cut short, whatever stands before it, does not end with a character. */
  lemma CutRuneIsBad(v: Bytes, r: Bytes, j: nat)
    requires 0 < j < RuneLen(r)
    ensures !EndsWithRune(v + r[..j])
  {
    forall n: nat ensures !EndsWithRuneOf(v + r[..j], n) {
      CutRuneCases(v, r, j, n);
    }
  }

  lemma InsideRune(e: Bytes, i: nat)
    requires 0 < i < RuneLen(e)
    ensures Continuation(e[i])
  {
  }

  lemma CutRuneCases(v: Bytes, r: Bytes, j: nat, n: nat)
    requires 0 < j < RuneLen(r)
    ensures !EndsWithRuneOf(v + r[..j], n)
  {
    var p := v + r[..j];
    if 1 <= n <= |p| {
      var e := p[|p| - n..];
      if n < j {
        assert e[0] == r[j - n];
        InsideRune(r, j - n);
      } else if n == j {
        assert e == r[..j];
        RunePrefix(r, j);
      } else {
        assert e[n - j] == r[0];
        RuneShape(r);
        if n - j < RuneLen(e) { InsideRune(e, n - j); }
      }
    }
  }

  /** The last character boundary of valid text within the limit. */
  lemma {:induction false} Boundary(s: Bytes, k: nat) returns (b: nat)
    requires Valid(s) && k <= |s|
    ensures b <= k && Valid(s[..b]) && (b == k || k - b < RuneLen(s[b..]))
    decreases |s|
  {
    var n := RuneLen(s);
    if k < n || s == [] {
      b := 0;
      assert s[0..] == s;
    } else {
      var b' := Boundary(s[n..], k - n);
      b := n + b';
      RunePrefix(s, b);
      assert s[..b][n..] == s[n..][..b'];
      assert s[b..] == s[n..][b'..];
    }
  }

  /**
   On valid text both cuts are the longest valid prefix within the limit, at most three bytes short of it.
   */
  lemma ValidTextCut(s: Bytes, limit: nat)
    requires Valid(s) && limit <= |s|
    ensures TrimAt(s, limit) == LongestValid(s, limit) && limit - 3 <= TrimAt(s, limit)
  {
    var b := Boundary(s, limit);
    forall i | b < i <= limit ensures !EndsWithRune(s[..i]) && !Valid(s[..i]) {
      CutRuneIsBad(s[..b], s[b..], i - b);
      assert s[..i] == s[..b] + s[b..][..i - b];
      if Valid(s[..i]) {
        ValidEndsWithRune(s[..i]);
      }
    }
    if b > 0 {
      ValidEndsWithRune(s[..b]);
    }
  }

  /** On any bytes the rune-by-rune trim keeps at least as much; the cuts agree exactly when what it keeps is valid. */
  lemma CutsAgreeIff(s: Bytes, limit: nat)
    requires limit <= |s|
    ensures LongestValid(s, limit) <= TrimAt(s, limit)
    ensures TrimAt(s, limit) == LongestValid(s, limit) <==> Valid(s[..TrimAt(s, limit)])
  {
    var l := LongestValid(s, limit);
    if l > 0 {
      ValidEndsWithRune(s[..l]);
    }
  }
}
