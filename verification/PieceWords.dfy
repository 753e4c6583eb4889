/**
 Two texts over one row of pieces: where a piece is forged, one text holds a value and the other a placeholder. They
 are never equal.
 */
module PieceWords {
  import opened Substitution
  import SubstitutionOrder

  /** A stretch both texts share, or a forged placeholder of the named variable. */
  datatype Piece = Same(text: string) | Forged(name: string)

  function PieceText(p: Piece, forged: map<string, string>): string {
    match p
    case Same(text) => text
    case Forged(name) => if name in forged then forged[name] else ""
  }

  function Spell(pieces: seq<Piece>, forged: map<string, string>): string
    decreases |pieces|
  {
    if pieces == [] then "" else PieceText(pieces[0], forged) + Spell(pieces[1..], forged)
  }

  ghost predicate OnlyForges(pieces: seq<Piece>, names: set<string>) {
    forall p :: p in pieces && p.Forged? ==> p.name in names
  }

  ghost predicate Mentions(pieces: seq<Piece>, name: string) {
    Forged(name) in pieces
  }

  // ---- counting placeholders ----

  /** Placeholders of one name in a text. */
  function Count(s: string, name: string): nat {
    SubstitutionOrder.CountVars(s, map[name := ""])
  }

  /** Joining two texts loses no placeholder. */
  lemma {:induction false} CountJoined(x: string, y: string, name: string)
    requires BraceFree(name)
    ensures Count(x + y, name) >= Count(x, name) + Count(y, name)
    decreases |x|
  {
    var v := map[name := ""];
    if x == [] {
      assert x + y == y;
    } else if StartsVar(x, v) {
      StartsJoined(x, y, name);
      CountJoined(AfterVar(x), y, name);
    } else if StartsVar(x + y, v) {
      CountCrossing(x, y, name);
    } else {
      assert (x + y)[1..] == x[1..] + y;
      CountJoined(x[1..], y, name);
    }
  }

  lemma StartsJoined(x: string, y: string, name: string)
    requires StartsVar(x, map[name := ""])
    ensures StartsVar(x + y, map[name := ""]) && AfterVar(x + y) == AfterVar(x) + y
  {
    CloseJoined(x, y);
    assert (x + y)[1..Close(x)] == x[1..Close(x)];
  }

  lemma {:induction false} CloseJoined(x: string, y: string)
    ensures Close(x + y) == if Close(x) < |x| then Close(x) else |x| + Close(y)
  {
    if x == [] {
      assert x + y == y;
    } else {
      assert (x + y)[1..] == x[1..] + y;
      CloseJoined(x[1..], y);
    }
  }

  /** What closes before the seam is a placeholder in both texts or in neither. */
  lemma ClosedStays(x: string, y: string, name: string)
    ensures Close(x) < |x| ==> (StartsVar(x + y, map[name := ""]) <==> StartsVar(x, map[name := ""]))
  {
    CloseJoined(x, y);
    if x != [] && x[0] == '{' && Close(x) < |x| {
      assert (x + y)[1..Close(x)] == x[1..Close(x)];
    }
  }

  lemma OwnName(s: string, name: string)
    requires StartsVar(s, map[name := ""])
    ensures NameAt(s) == name
  {
  }

  lemma CrossingCloses(x: string, y: string, name: string)
    requires x != [] && !StartsVar(x, map[name := ""]) && StartsVar(x + y, map[name := ""])
    ensures Close(y) < |y| && Close(x + y) == |x| + Close(y)
  {
    CloseJoined(x, y);
    ClosedStays(x, y, name);
  }

  lemma CrossingShape(x: string, y: string, k: nat, name: string)
    requires x != [] && k < |y| && Close(x + y) == |x| + k && (x + y)[1..|x| + k] == name
    ensures x[1..] + y[..k] == name && AfterVar(x + y) == y[k + 1..]
  {
    SeamSlices(x, y, k);
  }

  lemma SeamSlices(x: string, y: string, k: nat)
    requires x != [] && k < |y|
    ensures (x + y)[1..|x| + k] == x[1..] + y[..k] && (x + y)[|x| + k + 1..] == y[k + 1..]
  {
  }

  /** A placeholder across the seam: none in the first text, and none before the closing brace in the second. */
  lemma CountCrossing(x: string, y: string, name: string)
    requires BraceFree(name) && x != [] && !StartsVar(x, map[name := ""]) && StartsVar(x + y, map[name := ""])
    ensures Count(x + y, name) >= Count(x, name) + Count(y, name)
  {
    var v, k := map[name := ""], Close(y);
    CrossingCloses(x, y, name);
    OwnName(x + y, name);
    CrossingShape(x, y, k, name);
    assert forall c :: c in x[1..] || c in y[..k] ==> c in name;
    SubstitutionOrder.SkipNoOpen(x[1..], "", v, "");
    assert x[1..] + "" == x[1..];
    assert y == (y[..k] + "}") + y[k + 1..];
    SubstitutionOrder.SkipNoOpen(y[..k] + "}", y[k + 1..], v, "");
  }

  /** At an opening brace nothing can cross. */
  lemma {:induction false} CountAtBrace(x: string, y: string, name: string)
    requires BraceFree(name) && y != [] && y[0] == '{'
    ensures Count(x + y, name) == Count(x, name) + Count(y, name)
    decreases |x|
  {
    var v := map[name := ""];
    if x == [] {
      assert x + y == y;
    } else if StartsVar(x, v) {
      StartsJoined(x, y, name);
      CountAtBrace(AfterVar(x), y, name);
    } else {
      NothingCrosses(x, y, name);
      assert (x + y)[1..] == x[1..] + y;
      CountAtBrace(x[1..], y, name);
    }
  }

  lemma NothingCrosses(x: string, y: string, name: string)
    requires BraceFree(name) && y != [] && y[0] == '{' && x != [] && !StartsVar(x, map[name := ""])
    ensures !StartsVar(x + y, map[name := ""])
  {
    CloseJoined(x, y);
    ClosedStays(x, y, name);
    var s, k := x + y, Close(x + y);
    if Close(x) == |x| && k < |s| {
      assert s[|x|] == '{' && |x| < k;
      assert s[1..k][|x| - 1] == '{';
      assert !BraceFree(s[1..k]);
    }
  }

  lemma CountOwn(name: string, rest: string)
    requires BraceFree(name)
    ensures Count(Placeholder(name) + rest, name) == 1 + Count(rest, name)
  {
    CloseAt(name, rest);
    var s := Placeholder(name) + rest;
    assert s[1..|name| + 1] == name && s[|name| + 2..] == rest;
  }

  lemma CountOther(other: string, rest: string, name: string)
    requires BraceFree(other) && BraceFree(name) && other != name
    ensures Count(Placeholder(other) + rest, name) == Count(rest, name)
  {
    CloseAt(other, rest);
    var s, v := Placeholder(other) + rest, map[name := ""];
    assert s[1..|other| + 1] == other;
    assert s[1..] == (other + "}") + rest;
    SubstitutionOrder.SkipNoOpen(other + "}", rest, v, "");
  }

  // ---- texts in which only m is forged ----

  /** After p, spelling the forged m out makes no more placeholders of u than leaving it out. */
  ghost predicate NoMore(p: string, pieces: seq<Piece>, m: string, u: string) {
    Count(p + Spell(pieces, map[m := Placeholder(m)]), u) <= Count(p + Spell(pieces, map[m := ""]), u)
  }

  lemma NoMoreAtSame(p: string, pieces: seq<Piece>, m: string, u: string, c: string)
    requires pieces != [] && pieces[0] == Same(c) && NoMore(p + c, pieces[1..], m, u)
    ensures NoMore(p, pieces, m, u)
  {
    Regroup(p, c, Spell(pieces[1..], map[m := Placeholder(m)]));
    Regroup(p, c, Spell(pieces[1..], map[m := ""]));
  }

  lemma NoMoreAtForged(p: string, pieces: seq<Piece>, m: string, u: string)
    requires BraceFree(m) && BraceFree(u) && m != u
    requires pieces != [] && pieces[0] == Forged(m) && NoMore(p, pieces[1..], m, u)
    ensures NoMore(p, pieces, m, u)
  {
    var with, without := Spell(pieces[1..], map[m := Placeholder(m)]), Spell(pieces[1..], map[m := ""]);
    CountAtBrace(p, Placeholder(m) + with, u);
    CountOther(m, with, u);
    CountJoined(p, with, u);
    assert "" + without == without;
  }

  /** Placeholders of m put where the other text has nothing make no placeholder of another name. */
  lemma {:induction false} InsertedMakeNone(p: string, pieces: seq<Piece>, m: string, u: string)
    requires BraceFree(m) && BraceFree(u) && m != u && OnlyForges(pieces, {m})
    ensures NoMore(p, pieces, m, u)
    decreases |pieces|
  {
    if pieces != [] {
      OnlyForgesRest(pieces, {m});
      match pieces[0]
      case Same(c) =>
        InsertedMakeNone(p + c, pieces[1..], m, u);
        NoMoreAtSame(p, pieces, m, u, c);
      case Forged(_) =>
        InsertedMakeNone(p, pieces[1..], m, u);
        NoMoreAtForged(p, pieces, m, u);
    }
  }

  lemma OnlyForgesRest(pieces: seq<Piece>, names: set<string>)
    requires pieces != [] && OnlyForges(pieces, names)
    ensures OnlyForges(pieces[1..], names) && (pieces[0].Forged? ==> pieces[0].name in names)
  {
    assert pieces == [pieces[0]] + pieces[1..] && pieces[0] in pieces;
  }

  /** They add braces and length. */
  lemma {:induction false} InsertedAdd(pieces: seq<Piece>, m: string)
    requires OnlyForges(pieces, {m})
    ensures var with, without := Spell(pieces, map[m := Placeholder(m)]), Spell(pieces, map[m := ""]);
            && |with| >= |without|
            && multiset(with)['}'] >= multiset(without)['}']
    decreases |pieces|
  {
    if pieces != [] {
      assert pieces == [pieces[0]] + pieces[1..] && pieces[0] in pieces;
      InsertedAdd(pieces[1..], m);
    }
  }

  /**
   The heart of the argument: a placeholder of m ahead of the row, further ones inside it, against a text that has
   nothing in their place and continues with the placeholder of u.
   */
  lemma InsertedNeverCatchUp(pieces: seq<Piece>, m: string, u: string, x: string, y: string)
    requires BraceFree(m) && BraceFree(u) && m != u && OnlyForges(pieces, {m})
    ensures Placeholder(m) + Spell(pieces, map[m := Placeholder(m)]) + y
         != Spell(pieces, map[m := ""]) + (Placeholder(u) + x)
  {
    var with, c := Spell(pieces, map[m := Placeholder(m)]), Spell(pieces, map[m := ""]);
    var e := Placeholder(m) + with;
    InsertedAdd(pieces, m);
    InsertedMakeNone("", pieces, m, u);
    CountOther(m, with, u);
    assert "" + with == with && "" + c == c;
    assert multiset(e)['}'] > multiset(c)['}'];
    if e + y == c + (Placeholder(u) + x) {
      TailHoldsPlaceholder(e, y, c, u, x);
      var d := e[|c|..];
      var rest := d[|u| + 2..];
      CountAtBrace(c, d, u);
      CountOwn(u, rest);
    }
  }

  lemma TailHoldsPlaceholder(e: string, y: string, c: string, u: string, x: string)
    requires BraceFree(u) && |c| < |e| && multiset(e)['}'] > multiset(c)['}']
    requires e + y == c + (Placeholder(u) + x)
    ensures e == c + e[|c|..]
    ensures |u| + 2 <= |e[|c|..]| && e[|c|..] == Placeholder(u) + e[|c|..][|u| + 2..]
  {
    var d, whole := e[|c|..], e + y;
    assert whole[..|c|] == c && whole[..|c|] == e[..|c|];
    assert e == c + d;
    assert multiset(e) == multiset(c) + multiset(d);
    assert '}' in multiset(d);
    assert whole[|c|..] == d + y && whole[|c|..] == Placeholder(u) + x;
    var i :| 0 <= i < |d| && d[i] == '}';
    CloseAt(u, x);
    assert (Placeholder(u) + x)[i] == '}';
    assert |u| + 2 <= |d|;
    assert d[..|u| + 2] == (Placeholder(u) + x)[..|u| + 2] == Placeholder(u);
  }

  // ---- rows with a forged piece ----

  /** The pieces before the first forged placeholder of u. */
  lemma {:induction false} SplitAt(pieces: seq<Piece>, u: string) returns (k: nat)
    requires Mentions(pieces, u)
    ensures k < |pieces| && pieces[k] == Forged(u) && !Mentions(pieces[..k], u)
  {
    if pieces[0] == Forged(u) {
      k := 0;
    } else {
      assert pieces == [pieces[0]] + pieces[1..];
      var j := SplitAt(pieces[1..], u);
      k := j + 1;
      assert pieces[..k] == [pieces[0]] + pieces[1..][..j];
    }
  }

  lemma {:induction false} SpellConcat(a: seq<Piece>, b: seq<Piece>, forged: map<string, string>)
    ensures Spell(a + b, forged) == Spell(a, forged) + Spell(b, forged)
    decreases |a|
  {
    if a == [] {
      assert a + b == b;
    } else {
      assert (a + b)[1..] == a[1..] + b;
      SpellConcat(a[1..], b, forged);
      assert PieceText(a[0], forged) + (Spell(a[1..], forged) + Spell(b, forged)) ==
        Spell(a, forged) + Spell(b, forged);
    }
  }

  lemma SpellAtForged(a: seq<Piece>, name: string, b: seq<Piece>, forged: map<string, string>)
    requires name in forged
    ensures Spell(a + ([Forged(name)] + b), forged) == Spell(a, forged) + (forged[name] + Spell(b, forged))
  {
    SpellConcat(a, [Forged(name)] + b, forged);
    assert ([Forged(name)] + b)[1..] == b;
  }

  lemma Regroup(x: string, y: string, z: string)
    ensures x + (y + z) == x + y + z
  {
  }

  lemma {:induction false} SpellRestricted(pieces: seq<Piece>, m: string, forged: map<string, string>)
    requires OnlyForges(pieces, {m}) && m in forged
    ensures Spell(pieces, forged) == Spell(pieces, map[m := forged[m]])
    decreases |pieces|
  {
    if pieces != [] {
      assert pieces == [pieces[0]] + pieces[1..] && pieces[0] in pieces;
      SpellRestricted(pieces[1..], m, forged);
    }
  }

  /** With no forged u the text with the placeholders has more opening braces. */
  lemma {:induction false} MoreBraces(pieces: seq<Piece>, m: string, b: string)
    requires OnlyForges(pieces, {m}) && BraceFree(b)
    ensures var with, without := Spell(pieces, map[m := Placeholder(m)]), Spell(pieces, map[m := b]);
            && multiset(with)['{'] >= multiset(without)['{']
            && (Mentions(pieces, m) ==> multiset(with)['{'] > multiset(without)['{'])
    decreases |pieces|
  {
    if pieces != [] {
      assert pieces == [pieces[0]] + pieces[1..] && pieces[0] in pieces;
      MoreBraces(pieces[1..], m, b);
    }
  }

  /** A forged u after an m that leaves nothing. */
  lemma LaterForgedDiffers(tail: seq<Piece>, m: string, u: string, a: string)
    requires BraceFree(m) && BraceFree(u) && m != u && OnlyForges(tail, {m, u}) && Mentions(tail, u)
    ensures Spell(tail, map[m := "", u := Placeholder(u)]) !=
        Placeholder(m) + Spell(tail, map[m := Placeholder(m), u := a])
  {
    var one, two := map[m := "", u := Placeholder(u)], map[m := Placeholder(m), u := a];
    var k := SplitAt(tail, u);
    var pre, post := tail[..k], tail[k + 1..];
    assert tail == pre + ([Forged(u)] + post);
    assert OnlyForges(pre, {m});
    SpellAtForged(pre, u, post, one);
    SpellAtForged(pre, u, post, two);
    SpellRestricted(pre, m, one);
    SpellRestricted(pre, m, two);
    InsertedNeverCatchUp(pre, m, u, Spell(post, one), a + Spell(post, two));
    Regroup(Placeholder(m), Spell(pre, map[m := Placeholder(m)]), a + Spell(post, two));
  }

  lemma NoOtherDiffers(pieces: seq<Piece>, m: string, b: string, u: string, a: string)
    requires BraceFree(b) && m != u && OnlyForges(pieces, {m}) && Mentions(pieces, m)
    ensures Spell(pieces, map[m := b, u := Placeholder(u)]) != Spell(pieces, map[m := Placeholder(m), u := a])
  {
    SpellRestricted(pieces, m, map[m := b, u := Placeholder(u)]);
    SpellRestricted(pieces, m, map[m := Placeholder(m), u := a]);
    MoreBraces(pieces, m, b);
  }

  /** A row that begins with a forged m spells two different texts. */
  lemma ForgedFirstDiffers(pieces: seq<Piece>, m: string, b: string, u: string, a: string)
    requires BraceFree(m) && BraceFree(u) && BraceFree(a) && BraceFree(b) && m != u
    requires pieces != [] && pieces[0] == Forged(m) && OnlyForges(pieces, {m, u})
    ensures Spell(pieces, map[m := b, u := Placeholder(u)]) != Spell(pieces, map[m := Placeholder(m), u := a])
  {
    var tail := pieces[1..];
    assert pieces == [pieces[0]] + tail;
    if !Mentions(tail, u) {
      NoOtherDiffers(pieces, m, b, u, a);
    } else if b == "" {
      LaterForgedDiffers(tail, m, u, a);
      assert "" + Spell(tail, map[m := "", u := Placeholder(u)]) == Spell(tail, map[m := "", u := Placeholder(u)]);
    } else {
      assert Spell(pieces, map[m := b, u := Placeholder(u)])[0] == b[0] && b[0] in b;
    }
  }

  /** Any forged piece makes the two texts differ. */
  lemma {:induction false} ForgedRowDiffers(pieces: seq<Piece>, m: string, b: string, u: string, a: string)
    requires BraceFree(m) && BraceFree(u) && BraceFree(a) && BraceFree(b) && m != u
    requires OnlyForges(pieces, {m, u}) && (Mentions(pieces, m) || Mentions(pieces, u))
    ensures Spell(pieces, map[m := b, u := Placeholder(u)]) != Spell(pieces, map[m := Placeholder(m), u := a])
    decreases |pieces|
  {
    assert pieces == [pieces[0]] + pieces[1..] && pieces[0] in pieces;
    match pieces[0]
    case Same(c) =>
      ForgedRowDiffers(pieces[1..], m, b, u, a);
      var x, y := Spell(pieces[1..], map[m := b, u := Placeholder(u)]),
                  Spell(pieces[1..], map[m := Placeholder(m), u := a]);
      assert (c + x)[|c|..] == x && (c + y)[|c|..] == y;
    case Forged(name) =>
      if name == m {
        ForgedFirstDiffers(pieces, m, b, u, a);
      } else {
        ForgedFirstDiffers(pieces, u, a, m, b);
        assert map[u := a, m := Placeholder(m)] == map[m := Placeholder(m), u := a];
        assert map[u := Placeholder(u), m := b] == map[m := b, u := Placeholder(u)];
      }
  }
}
