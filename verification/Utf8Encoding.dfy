/** The decoder's table against the encoding itself; section 3 of RFC 3629. */
module Utf8Encoding {
  import opened Utf8Cut

  /** A Unicode scalar value: any code point but a surrogate. */
  predicate Scalar(c: int) {
    0 <= c < 0xD800 || 0xE000 <= c <= 0x10FFFF
  }

  /** The bytes of one character. */
  function Encode(c: int): Bytes
    requires Scalar(c)
  {
    if c < 0x80 then [c as byte]
    else if c < 0x800 then [(0xC0 + c / 64) as byte, (0x80 + c % 64) as byte]
    else if c < 0x1_0000 then
      [(0xE0 + c / 4096) as byte, (0x80 + c / 64 % 64) as byte, (0x80 + c % 64) as byte]
    else
      [(0xF0 + c / 262144) as byte, (0x80 + c / 4096 % 64) as byte, (0x80 + c / 64 % 64) as byte,
       (0x80 + c % 64) as byte]
  }

  /** The bytes of a text. */
  function EncodeAll(text: seq<int>): Bytes
    requires forall c :: c in text ==> Scalar(c)
  {
    if text == [] then [] else Encode(text[0]) + EncodeAll(text[1..])
  }

  /** Every encoded character is read at its full length, whatever follows. */
  lemma EncodedIsRead(c: int, rest: Bytes)
    requires Scalar(c)
    ensures RuneLen(Encode(c) + rest) == |Encode(c)|
  {
    var e := Encode(c);
    var s := e + rest;
    assert forall i :: 0 <= i < |e| ==> s[i] == e[i];
    LeadByte(c);
  }

  lemma LeadByte(c: int)
    requires Scalar(c)
    ensures Announced(Encode(c)[0]) == |Encode(c)|
    ensures forall i :: 1 <= i < |Encode(c)| ==> Continuation(Encode(c)[i])
    ensures |Encode(c)| >= 2 ==> SecondFits(Encode(c)[0], Encode(c)[1])
  {
  }

  /** The character a read sequence stands for. */
  function Decode(s: Bytes): int
    requires RuneLen(s) > 0
  {
    var n := RuneLen(s);
    if n == 1 then s[0] as int
    else if n == 2 then (s[0] as int - 0xC0) * 64 + (s[1] as int - 0x80)
    else if n == 3 then (s[0] as int - 0xE0) * 4096 + (s[1] as int - 0x80) * 64 + (s[2] as int - 0x80)
    else (s[0] as int - 0xF0) * 262144 + (s[1] as int - 0x80) * 4096 + (s[2] as int - 0x80) * 64 + (s[3] as int - 0x80)
  }

  lemma Digits(a: int, b: int, c: int, d: int)
    requires 0 <= a && 0 <= b < 64 && 0 <= c < 64 && 0 <= d < 64
    ensures var n := a * 262144 + b * 4096 + c * 64 + d;
            n / 262144 == a && n / 4096 % 64 == b && n / 64 % 64 == c && n % 64 == d
  {
    var n := a * 262144 + b * 4096 + c * 64 + d;
    assert n / 64 == a * 4096 + b * 64 + c;
    assert n / 4096 == a * 64 + b;
  }

  lemma ReadOne(s: Bytes)
    requires RuneLen(s) == 1
    ensures Scalar(Decode(s)) && Encode(Decode(s)) == s[..1]
  {
  }

  lemma ReadTwo(s: Bytes)
    requires RuneLen(s) == 2
    ensures Scalar(Decode(s)) && Encode(Decode(s)) == s[..2]
  {
    RuneShape(s);
    Digits(0, 0, s[0] as int - 0xC0, s[1] as int - 0x80);
    var c := Decode(s);
    assert c / 64 == s[0] as int - 0xC0;
    assert 0x80 <= c < 0x800;
  }

  lemma ReadThree(s: Bytes)
    requires RuneLen(s) == 3
    ensures Scalar(Decode(s)) && Encode(Decode(s)) == s[..3]
  {
    RuneShape(s);
    Digits(0, s[0] as int - 0xE0, s[1] as int - 0x80, s[2] as int - 0x80);
    var c := Decode(s);
    assert c / 4096 == s[0] as int - 0xE0;
    assert 0x800 <= c < 0x1_0000;
  }

  lemma ReadFour(s: Bytes)
    requires RuneLen(s) == 4
    ensures Scalar(Decode(s)) && Encode(Decode(s)) == s[..4]
  {
    RuneShape(s);
    Digits(s[0] as int - 0xF0, s[1] as int - 0x80, s[2] as int - 0x80, s[3] as int - 0x80);
    assert 0x1_0000 <= Decode(s) <= 0x10FFFF;
  }

  /** What is read is the encoding of a character. */
  lemma ReadIsEncoded(s: Bytes)
    requires RuneLen(s) > 0
    ensures Scalar(Decode(s)) && Encode(Decode(s)) == s[..RuneLen(s)]
  {
    match RuneLen(s) {
      case 1 => ReadOne(s);
      case 2 => ReadTwo(s);
      case 3 => ReadThree(s);
      case _ => ReadFour(s);
    }
  }

  /** s begins with the bytes of a character, n of them. */
  ghost predicate Begins(s: Bytes, n: nat) {
    exists c :: Scalar(c) && |Encode(c)| == n && Encode(c) <= s
  }

  /** The decoder reads n bytes exactly where a character's n bytes stand. */
  lemma RuneLenIff(s: Bytes, n: nat)
    requires n > 0
    ensures RuneLen(s) == n <==> Begins(s, n)
  {
    if RuneLen(s) == n {
      ReadIsEncoded(s);
      assert Scalar(Decode(s)) && |Encode(Decode(s))| == n && Encode(Decode(s)) <= s;
    }
    if Begins(s, n) {
      var c :| Scalar(c) && |Encode(c)| == n && Encode(c) <= s;
      assert s == Encode(c) + s[n..];
      EncodedIsRead(c, s[n..]);
    }
  }

  /** Bytes are valid exactly when they encode some text. */
  lemma {:induction false} ValidIff(s: Bytes)
    ensures Valid(s) <==> exists text: seq<int> :: (forall c :: c in text ==> Scalar(c)) && s == EncodeAll(text)
    decreases |s|
  {
    if Valid(s) {
      var text := DecodeAll(s);
    }
    if text: seq<int> :| (forall c :: c in text ==> Scalar(c)) && s == EncodeAll(text) {
      EncodedIsValid(text);
    }
  }

  lemma {:induction false} ValidConcat(a: Bytes, b: Bytes)
    requires Valid(a) && Valid(b)
    ensures Valid(a + b)
    decreases |a|
  {
    if a == [] {
      assert a + b == b;
    } else {
      var n := RuneLen(a);
      ReadIsEncoded(a);
      assert a + b == Encode(Decode(a)) + (a[n..] + b);
      EncodedIsRead(Decode(a), a[n..] + b);
      ValidConcat(a[n..], b);
      assert (a + b)[n..] == a[n..] + b;
    }
  }

  /** Valid text that is cut, with the ellipsis U+2026 after it, is valid text. */
  lemma ObservedStaysValid(s: Bytes, max: nat)
    requires Valid(s) && max <= |s|
    ensures ELLIPSIS == Encode(0x2026) && Valid(s[..TrimAt(s, max)] + ELLIPSIS)
  {
    ValidTextCut(s, max);
    EncodedIsRead(0x2026, []);
    assert ELLIPSIS == Encode(0x2026) + [];
    assert ELLIPSIS[3..] == [];
    ValidConcat(s[..TrimAt(s, max)], ELLIPSIS);
  }

  lemma {:induction false} DecodeAll(s: Bytes) returns (text: seq<int>)
    requires Valid(s)
    ensures (forall c :: c in text ==> Scalar(c)) && s == EncodeAll(text)
    decreases |s|
  {
    if s == [] {
      text := [];
    } else {
      ReadIsEncoded(s);
      var rest := DecodeAll(s[RuneLen(s)..]);
      text := [Decode(s)] + rest;
    }
  }

  lemma {:induction false} EncodedIsValid(text: seq<int>)
    requires forall c :: c in text ==> Scalar(c)
    ensures Valid(EncodeAll(text))
  {
    if text != [] {
      EncodedIsRead(text[0], EncodeAll(text[1..]));
      EncodedIsValid(text[1..]);
      assert EncodeAll(text)[|Encode(text[0])|..] == EncodeAll(text[1..]);
    }
  }
}
