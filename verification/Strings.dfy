/** What a JSON string means (section 7 of RFC 8259, section 4 of RFC 3629): which bytes the
    lexer accepts, and that unescaping them yields the UTF-8 form of their code points. */
module Strings {
  import opened Bytes
  import opened Unescape
  import opened Lexing

  /** A Unicode scalar value. */
  predicate Scalar(cp: int) { 0 <= cp <= 0x10FFFF && !(0xD800 <= cp <= 0xDFFF) }

  function Encode(cps: seq<int>): bytes
    requires forall k :: 0 <= k < |cps| ==> Scalar(cps[k])
  {
    if cps == [] then [] else assert Scalar(cps[0]); Utf8(cps[0]) + Encode(cps[1..])
  }

  /** Well-formed UTF-8: the encoding of some scalar values. */
  predicate IsUtf8(s: bytes) {
    s == [] || (Utf8Len(s, 0) > 0 && IsUtf8(s[Utf8Len(s, 0)..]))
  }

  // ---------------------------------------------------------------- unescaped characters

  function Lead2(a: byte, b: byte): int { (a as int - 0xC0) * 64 + (b as int - 0x80) }

  function Lead3(a: byte, b: byte, c: byte): int {
    (a as int - 0xE0) * 4096 + (b as int - 0x80) * 64 + (c as int - 0x80)
  }

  function Lead4(a: byte, b: byte, c: byte, d: byte): int {
    (a as int - 0xF0) * 262144 + (b as int - 0x80) * 4096 + (c as int - 0x80) * 64 + (d as int - 0x80)
  }

  /** The code point of the well-formed sequence at `i`. */
  function RawPoint(s: bytes, i: nat): int
    requires i < |s| && Utf8Len(s, i) > 0
  {
    var n := Utf8Len(s, i);
    if n == 1 then s[i] as int
    else if n == 2 then Lead2(s[i], s[i + 1])
    else if n == 3 then Lead3(s[i], s[i + 1], s[i + 2])
    else Lead4(s[i], s[i + 1], s[i + 2], s[i + 3])
  }

  lemma Lead2Encodes(a: byte, b: byte)
    requires 0xC2 <= a <= 0xDF && 0x80 <= b <= 0xBF
    ensures 0x80 <= Lead2(a, b) <= 0x7FF && Utf8(Lead2(a, b)) == [a, b]
  {
    var cp := Lead2(a, b);
    assert cp / 64 == a as int - 0xC0 && cp % 64 == b as int - 0x80;
  }

  lemma Lead3Encodes(a: byte, b: byte, c: byte)
    requires 0xE0 <= a <= 0xEF && 0x80 <= c <= 0xBF
    requires (if a == 0xE0 then 0xA0 else 0x80) <= b <= (if a == 0xED then 0x9F else 0xBF)
    ensures 0x800 <= Lead3(a, b, c) <= 0xFFFF && Scalar(Lead3(a, b, c)) && Utf8(Lead3(a, b, c)) == [a, b, c]
  {
    var cp := Lead3(a, b, c);
    var y := (a as int - 0xE0) * 64 + (b as int - 0x80);
    assert cp == y * 64 + (c as int - 0x80);
    assert cp / 64 == y && cp % 64 == c as int - 0x80;
    assert y / 64 == a as int - 0xE0 && y % 64 == b as int - 0x80;
    DivTwice(cp, 64, 64);
  }

  lemma DivTwice(x: int, a: int, b: int)
    requires x >= 0 && a > 0 && b > 0
    ensures a * b > 0 && x / (a * b) == x / a / b
  {
    var q := x / a / b;
    var r := x / a % b;
    var t := x % a;
    assert x / a == q * b + r;
    assert x == (x / a) * a + t;
    assert x == (q * b + r) * a + t;
    Distribute(q, b, r, a);
    Below(r, b, t, a);
    Quotient(x, a * b, q, r * a + t);
  }

  lemma Distribute(q: int, b: int, r: int, a: int)
    ensures (q * b + r) * a == q * (a * b) + r * a
  {
  }

  lemma Below(r: int, b: int, t: int, a: int)
    requires 0 <= r < b && 0 <= t < a
    ensures 0 <= r * a + t < a * b
  {
    assert r * a <= (b - 1) * a;
  }

  lemma Quotient(x: int, d: int, q: int, r: int)
    requires d > 0 && x == q * d + r && 0 <= r < d
    ensures x / d == q
  {
    var p := x / d;
    assert p * d <= x < p * d + d;
    Monotone(p + 1, q, d);
    Monotone(q + 1, p, d);
  }

  lemma Monotone(a: int, b: int, d: int)
    requires d > 0
    ensures a <= b ==> a * d <= b * d
  {
  }

  lemma Lead4Encodes(a: byte, b: byte, c: byte, d: byte)
    requires 0xF0 <= a <= 0xF4 && 0x80 <= c <= 0xBF && 0x80 <= d <= 0xBF
    requires (if a == 0xF0 then 0x90 else 0x80) <= b <= (if a == 0xF4 then 0x8F else 0xBF)
    ensures 0x10000 <= Lead4(a, b, c, d) <= 0x10FFFF && Utf8(Lead4(a, b, c, d)) == [a, b, c, d]
  {
    var cp := Lead4(a, b, c, d);
    var z := (a as int - 0xF0) * 64 + (b as int - 0x80);
    var y := z * 64 + (c as int - 0x80);
    assert cp == y * 64 + (d as int - 0x80);
    assert cp / 64 == y && cp % 64 == d as int - 0x80;
    assert y / 64 == z && y % 64 == c as int - 0x80;
    assert z / 64 == a as int - 0xF0 && z % 64 == b as int - 0x80;
    DivTwice(cp, 64, 64);
    DivTwice(cp, 4096, 64);
  }

  /** A sequence the lexer's byte tables accept is the encoding of a scalar value. */
  lemma RawEncodes(s: bytes, i: nat)
    requires i < |s| && Utf8Len(s, i) > 0
    ensures Scalar(RawPoint(s, i)) && Utf8(RawPoint(s, i)) == s[i..i + Utf8Len(s, i)]
    ensures (RawPoint(s, i) < 0x80 <==> s[i] < 0x80) && (s[i] < 0x80 ==> RawPoint(s, i) == s[i] as int)
  {
    hide Utf8;
    var n := Utf8Len(s, i);
    if n == 1 {
      Utf8One(s[i]);
      assert s[i..i + 1] == [s[i]];
    } else if n == 2 {
      Lead2Encodes(s[i], s[i + 1]);
      assert s[i..i + 2] == [s[i], s[i + 1]];
    } else if n == 3 {
      Lead3Encodes(s[i], s[i + 1], s[i + 2]);
      assert s[i..i + 3] == [s[i], s[i + 1], s[i + 2]];
    } else {
      Lead4Encodes(s[i], s[i + 1], s[i + 2], s[i + 3]);
      assert s[i..i + 4] == [s[i], s[i + 1], s[i + 2], s[i + 3]];
    }
  }

  lemma Utf8One(c: byte)
    requires c <= 0x7F
    ensures Utf8(c as int) == [c]
  {
  }

  /** The encoding of a scalar value is accepted by the byte tables, to its full length. */
  lemma EncodedAccepted(s: bytes, i: nat, cp: int)
    requires Scalar(cp) && Here(s, i, Utf8(cp))
    ensures i < |s| && Utf8Len(s, i) == |Utf8(cp)|
  {
    var u := Utf8(cp);
    assert s[i] == s[i..i + |u|][0];
    if |u| >= 2 {
      assert s[i + 1] == s[i..i + |u|][1];
    }
    if |u| >= 3 {
      assert s[i + 2] == s[i..i + |u|][2];
    }
    if |u| >= 4 {
      assert s[i + 3] == s[i..i + |u|][3];
    }
    if 0x800 <= cp <= 0xFFFF {
      DivTwice(cp, 64, 64);
    } else if cp > 0xFFFF {
      DivTwice(cp, 64, 64);
      DivTwice(cp, 4096, 64);
    }
  }

  /** A character other than an escape is accepted exactly when it is the UTF-8 form of a
      code point that section 7 of RFC 8259 allows unescaped. */
  lemma PlainCharExact(s: bytes, i: nat)
    requires i < |s| && s[i] != BACKSLASH
    ensures CharLen(s, i) > 0 <==>
            exists cp: int :: Scalar(cp) && cp >= 0x20 && cp != 0x22 && cp != 0x5C && Here(s, i, Utf8(cp))
    ensures CharLen(s, i) > 0 ==> s[i..i + CharLen(s, i)] == Utf8(RawPoint(s, i))
  {
    hide Utf8;
    hide Utf8Len;
    hide RawPoint;
    CharIs(s, i);
    if CharLen(s, i) > 0 {
      RawEncodes(s, i);
      assert Here(s, i, Utf8(RawPoint(s, i)));
    }
    if cp: int :| Scalar(cp) && cp >= 0x20 && cp != 0x22 && cp != 0x5C && Here(s, i, Utf8(cp)) {
      EncodedAccepted(s, i, cp);
      FirstByte(s, i, cp);
    }
  }

  lemma FirstByte(s: bytes, i: nat, cp: int)
    requires Scalar(cp) && cp >= 0x20 && cp != 0x22 && cp != 0x5C && Here(s, i, Utf8(cp))
    ensures i < |s| && s[i] != QUOTE && s[i] >= 0x20 && |Utf8(cp)| > 0
  {
    assert s[i] == s[i..i + |Utf8(cp)|][0];
  }

  // ---------------------------------------------------------------- all characters

  /** What the short escapes stand for (section 7 of RFC 8259). */
  function ShortMeaning(c: byte): int {
    match c as int
    case 0x62 => 0x08
    case 0x66 => 0x0C
    case 0x6E => 0x0A
    case 0x72 => 0x0D
    case 0x74 => 0x09
    case n => n
  }

  function HexDigitMeaning(c: byte): int {
    if 0x30 <= c <= 0x39 then c as int - 0x30
    else if 0x41 <= c <= 0x46 then c as int - 0x41 + 10
    else c as int - 0x61 + 10
  }

  function HexMeaning(s: bytes, i: nat): int
    requires i + 4 <= |s|
  {
    4096 * HexDigitMeaning(s[i]) + 256 * HexDigitMeaning(s[i + 1]) + 16 * HexDigitMeaning(s[i + 2]) + HexDigitMeaning(s[i + 3])
  }

  lemma HexMeans(s: bytes, i: nat)
    requires HexAt(s, i)
    ensures HexMeaning(s, i) == HexOf(s, i)
  {
  }

  /** The code point of the accepted character at `i`. */
  function CodePoint(s: bytes, i: nat): int
    requires i < |s| && CharLen(s, i) > 0
  {
    if s[i] != BACKSLASH then RawPoint(s, i)
    else if CharLen(s, i) == 2 then ShortMeaning(s[i + 1])
    else if CharLen(s, i) == 6 then HexMeaning(s, i + 2)
    else 0x10000 + (HexMeaning(s, i + 2) - 0xD800) * 0x400 + (HexMeaning(s, i + 8) - 0xDC00)
  }

  lemma EscapeForms(s: bytes, i: nat)
    requires i < |s| && s[i] == BACKSLASH && CharLen(s, i) > 0
    ensures CharLen(s, i) == EscapeLen(s, i)
    ensures CharLen(s, i) == 2 || CharLen(s, i) == 6 || CharLen(s, i) == 12
    ensures CharLen(s, i) == 2 <==> i + 1 < |s| && IsShortEscape(s[i + 1])
    ensures CharLen(s, i) >= 6 ==> UEscapeAt(s, i) && !LowSurrogate(HexOf(s, i + 2))
    ensures CharLen(s, i) == 6 ==> !HighSurrogate(HexOf(s, i + 2))
    ensures CharLen(s, i) == 12 ==> HighSurrogate(HexOf(s, i + 2)) && UEscapeAt(s, i + 6) && LowSurrogate(HexOf(s, i + 8))
  {
    hide HexOf;
  }

  lemma PlainPoint(s: bytes, i: nat)
    requires i < |s| && CharLen(s, i) > 0
    ensures s[i] != BACKSLASH ==> Utf8Len(s, i) > 0 && CodePoint(s, i) == RawPoint(s, i)
    ensures s[i] == BACKSLASH && CharLen(s, i) == 2 ==> Scalar(CodePoint(s, i))
  {
    hide RawPoint;
    hide HexMeaning;
    hide EscapeLen;
    hide Utf8Len;
  }

  lemma CodePointScalar(s: bytes, i: nat)
    requires i < |s| && CharLen(s, i) > 0
    ensures Scalar(CodePoint(s, i))
  {
    hide HexOf;
    hide CodePoint;
    PlainPoint(s, i);
    hide RawPoint;
    hide Utf8Len;
    hide EscapeLen;
    if s[i] != BACKSLASH {
      RawEncodes(s, i);
    } else {
      CodePointForms(s, i);
      EscapeForms(s, i);
    }
  }

  /** The code points of the string body at `i`. */
  function CodePoints(s: bytes, i: nat): (r: seq<int>)
    requires i <= |s| && StringEnd(s, i).Some?
    ensures forall k :: 0 <= k < |r| ==> Scalar(r[k])
    decreases |s| - i
  {
    if s[i] == QUOTE then []
    else CodePointScalar(s, i); [CodePoint(s, i)] + CodePoints(s, i + CharLen(s, i))
  }

  /** A unit the decoder reads as section 7 of RFC 8259 means it, without falling back. */
  predicate Proper(s: bytes)
    requires s != []
  {
    s[0] != BACKSLASH ||
    (|s| >= 2 &&
     (IsShortEscape(s[1]) ||
      (s[1] == 117 && IsHex4(s[2..]) &&
       (if HighSurrogate(Hex4(s[2..]))
        then |s| >= 12 && s[6] == BACKSLASH && s[7] == 117 && IsHex4(s[8..]) && LowSurrogate(Hex4(s[8..]))
        else !LowSurrogate(Hex4(s[2..]))))))
  }

  predicate AllProper(s: bytes) {
    s == [] || (Proper(s) && AllProper(s[DecodeUnit(s).len..]))
  }

  lemma HexSame(s: bytes, i: nat, e: nat, k: nat)
    requires i <= e <= |s| && k + 4 <= e - i && HexAt(s, i + k)
    ensures IsHex4(s[i..e][k..]) && Hex4(s[i..e][k..]) == HexOf(s, i + k)
  {
    var t := s[i..e][k..];
    assert t[0] == s[i + k] && t[1] == s[i + k + 1] && t[2] == s[i + k + 2] && t[3] == s[i + k + 3];
  }

  /** An accepted escape is decoded to its code point. */
  lemma EscapeDecodes(s: bytes, i: nat, e: nat)
    requires i < |s| && s[i] == BACKSLASH && CharLen(s, i) > 0 && i + CharLen(s, i) <= e <= |s|
    ensures Scalar(CodePoint(s, i)) && Proper(s[i..e])
    ensures DecodeUnit(s[i..e]) == Unit(CharLen(s, i), Utf8(CodePoint(s, i)))
  {
    hide HexOf;
    hide HexAt;
    hide IsHex4;
    hide Hex4;
    hide Utf8;
    hide EscapeLen;
    hide CharLen;
    var t := s[i..e];
    EscapeForms(s, i);
    CodePointScalar(s, i);
    CodePointForms(s, i);
    assert t[0] == s[i] && t[1] == s[i + 1];
    if CharLen(s, i) == 2 {
      ShortEncodes(s[i + 1]);
    } else {
      HexSame(s, i, e, 2);
      if CharLen(s, i) == 12 {
        assert t[6] == s[i + 6] && t[7] == s[i + 7];
        HexSame(s, i, e, 8);
      }
    }
  }

  lemma CodePointForms(s: bytes, i: nat)
    requires i < |s| && CharLen(s, i) > 0 && s[i] == BACKSLASH
    ensures CharLen(s, i) == 2 ==> CodePoint(s, i) == SimpleEscape(s[i + 1]) as int
    ensures CharLen(s, i) == 6 ==> HexAt(s, i + 2) && CodePoint(s, i) == HexOf(s, i + 2)
    ensures CharLen(s, i) == 12 ==> HexAt(s, i + 2) && HexAt(s, i + 8) && HighSurrogate(HexOf(s, i + 2)) && LowSurrogate(HexOf(s, i + 8))
                                    && CodePoint(s, i) == PairCodePoint(HexOf(s, i + 2), HexOf(s, i + 8))
  {
    hide HexOf;
    hide EscapeLen;
    hide HexMeaning;
    hide RawPoint;
    EscapeForms(s, i);
    if CharLen(s, i) >= 6 {
      HexMeans(s, i + 2);
    }
    if CharLen(s, i) == 12 {
      HexMeans(s, i + 8);
    }
  }

  lemma ShortEncodes(c: byte)
    requires IsShortEscape(c)
    ensures Utf8(SimpleEscape(c) as int) == [SimpleEscape(c)] && c != 117
  {
  }

  /** Bytes other than backslashes are copied. */
  lemma {:induction false} PlainCopied(s: bytes, n: nat)
    requires n <= |s| && forall k :: 0 <= k < n ==> s[k] != BACKSLASH
    ensures Unescaped(s) == s[..n] + Unescaped(s[n..]) && (AllProper(s[n..]) ==> AllProper(s))
    decreases n
  {
    hide *;
    if n == 0 {
      assert s[0..] == s && s[..0] == [];
      assert [] + Unescaped(s) == Unescaped(s);
    } else {
      var rest := s[1..];
      PlainUnit(s);
      assert s[0..] == s;
      UnescapedStep(s, 0, 1, [s[0]]);
      PlainCopied(rest, n - 1);
      assert rest[n - 1..] == s[n..];
      assert s[..n] == [s[0]] + rest[..n - 1];
      Regroup([s[0]], rest[..n - 1], Unescaped(s[n..]));
      if AllProper(s[n..]) {
        ProperStep(s, 1);
      }
    }
  }

  lemma PlainUnit(s: bytes)
    requires s != [] && s[0] != BACKSLASH
    ensures DecodeUnit(s) == Unit(1, [s[0]]) && Proper(s)
  {
  }

  lemma RawBytes(s: bytes, i: nat)
    requires i < |s| && s[i] != BACKSLASH
    ensures forall k :: i <= k < i + Utf8Len(s, i) ==> s[k] != BACKSLASH
  {
    forall k | i <= k < i + Utf8Len(s, i) ensures s[k] != BACKSLASH {
      assert k == i || k == i + 1 || k == i + 2 || k == i + 3;
    }
  }

  lemma StringEndForms(s: bytes, i: nat)
    requires i <= |s| && StringEnd(s, i).Some?
    ensures i < |s|
    ensures s[i] == QUOTE ==> StringEnd(s, i) == Some(i)
    ensures s[i] != QUOTE ==> CharLen(s, i) > 0 && StringEnd(s, i + CharLen(s, i)) == StringEnd(s, i)
                              && i + CharLen(s, i) <= StringEnd(s, i).value
  {
    hide CharLen;
  }

  /** Every body the lexer accepts is decoded without a fallback, to the UTF-8 form of the
      code points it stands for. */
  lemma {:induction false} BodyDecodes(s: bytes, i: nat)
    requires i <= |s| && StringEnd(s, i).Some?
    ensures var body := s[i..StringEnd(s, i).value];
            Unescaped(body) == Encode(CodePoints(s, i)) && AllProper(body)
    decreases |s| - i
  {
    hide CharLen;
    hide StringEnd;
    hide Unescaped;
    hide CodePoints;
    hide CodePoint;
    hide Encode;
    hide AllProper;
    hide Proper;
    hide DecodeUnit;
    var e := StringEnd(s, i).value;
    var body := s[i..e];
    StringEndForms(s, i);
    PointsForms(s, i);
    if s[i] != QUOTE {
      var n := CharLen(s, i);
      BodyDecodes(s, i + n);
      assert body[n..] == s[i + n..e];
      CodePointScalar(s, i);
      if s[i] == BACKSLASH {
        EscapeDecodes(s, i, e);
        UnescapedStep(s[..e], i, n, Utf8(CodePoint(s, i)));
        assert s[..e][i..] == body && s[..e][i + n..] == s[i + n..e];
        ProperStep(body, n);
      } else {
        PlainBytes(s, i, e);
        PlainCopied(body, n);
      }
    } else {
      assert body == [];
      NothingDecoded();
    }
  }

  lemma PlainBytes(s: bytes, i: nat, e: nat)
    requires i < |s| && s[i] != BACKSLASH && CharLen(s, i) > 0 && i + CharLen(s, i) <= e <= |s|
    ensures var n := CharLen(s, i);
            && Scalar(CodePoint(s, i)) && s[i..e][..n] == Utf8(CodePoint(s, i))
            && forall k :: 0 <= k < n ==> s[i..e][k] != BACKSLASH
  {
    hide Utf8Len;
    hide RawPoint;
    hide Utf8;
    CharIs(s, i);
    RawEncodes(s, i);
    RawBytes(s, i);
    assert s[i..e][..CharLen(s, i)] == s[i..i + CharLen(s, i)];
  }

  lemma ProperStep(s: bytes, n: nat)
    requires s != [] && Proper(s) && DecodeUnit(s).len == n && n <= |s| && AllProper(s[n..])
    ensures AllProper(s)
  {
    hide Proper;
    hide DecodeUnit;
  }

  lemma NothingDecoded()
    ensures Unescaped([]) == [] && AllProper([]) && Encode([]) == []
  {
  }

  lemma PointsForms(s: bytes, i: nat)
    requires i <= |s| && StringEnd(s, i).Some?
    ensures i < |s|
    ensures s[i] == QUOTE ==> CodePoints(s, i) == []
    ensures s[i] != QUOTE ==> CharLen(s, i) > 0 && Scalar(CodePoint(s, i)) && StringEnd(s, i + CharLen(s, i)).Some?
                              && CodePoints(s, i) == [CodePoint(s, i)] + CodePoints(s, i + CharLen(s, i))
                              && Encode(CodePoints(s, i)) == Utf8(CodePoint(s, i)) + Encode(CodePoints(s, i + CharLen(s, i)))
  {
    hide CharLen;
    hide CodePoint;
    hide Utf8;
    StringEndForms(s, i);
    if s[i] != QUOTE {
      CodePointScalar(s, i);
      var rest := CodePoints(s, i + CharLen(s, i));
      assert ([CodePoint(s, i)] + rest)[1..] == rest;
    }
  }

  /** Encodings of scalar values are well-formed UTF-8. */
  lemma {:induction false} EncodeIsUtf8(cps: seq<int>)
    requires forall k :: 0 <= k < |cps| ==> Scalar(cps[k])
    ensures IsUtf8(Encode(cps))
  {
    hide Utf8;
    hide Utf8Len;
    if cps != [] {
      EncodeIsUtf8(cps[1..]);
      var s := Encode(cps);
      var u := Utf8(cps[0]);
      assert s[..|u|] == u;
      assert Here(s, 0, u);
      EncodedAccepted(s, 0, cps[0]);
      assert s[|u|..] == Encode(cps[1..]);
    }
  }

  /** The text of an accepted string is well-formed UTF-8, and shorter than the slice when
      there are escapes. */
  lemma TextIsUtf8(s: bytes, i: nat)
    requires i <= |s| && StringEnd(s, i).Some?
    ensures var body := s[i..StringEnd(s, i).value];
            && IsUtf8(Unescaped(body)) && |Unescaped(body)| <= |body|
            && (BACKSLASH in body ==> |Unescaped(body)| < |body|) && (BACKSLASH !in body ==> Unescaped(body) == body)
  {
    hide StringEnd;
    hide Unescaped;
    hide Encode;
    hide IsUtf8;
    BodyDecodes(s, i);
    EncodeIsUtf8(CodePoints(s, i));
    UnescapedShrinks(s[i..StringEnd(s, i).value]);
  }

  // ---------------------------------------------------------------- what is no proper escape

  predicate HexFront(s: bytes) {
    |s| >= 4 && forall k :: 0 <= k < 4 ==> 0x30 <= s[k] <= 0x39 || 0x41 <= s[k] <= 0x46 || 0x61 <= s[k] <= 0x66
  }

  lemma HexFrontIs(s: bytes)
    ensures HexFront(s) <==> IsHex4(s)
  {
    if HexFront(s) {
      assert IsHex(s[0]) && IsHex(s[1]) && IsHex(s[2]) && IsHex(s[3]);
    }
  }

  lemma DigitSame(c: byte)
    requires IsHex(c)
    ensures HexDigitMeaning(c) == HexValue(c)
  {
  }

  lemma FrontMeans(s: bytes)
    requires IsHex4(s)
    ensures HexMeaning(s, 0) == Hex4(s)
  {
    hide HexValue;
    hide HexDigitMeaning;
    DigitSame(s[0]);
    DigitSame(s[1]);
    DigitSame(s[2]);
    DigitSame(s[3]);
  }

  /** The decoder's answer to what the lexer never lets through: a backslash at the end is
      dropped, an unknown letter stands for itself, and `\u` without four digits for the
      letter u. */
  lemma Fallbacks(c: byte, rest: bytes)
    ensures Unescaped([0x5C]) == []
    ensures c !in {0x62, 0x66, 0x6E, 0x72, 0x74, 0x75} ==> Unescaped([0x5C, c] + rest) == [c] + Unescaped(rest)
    ensures !HexFront(rest) ==> Unescaped([0x5C, 0x75] + rest) == [0x75] + Unescaped(rest)
  {
    hide *;
    LoneBackslash();
    if c !in {0x62, 0x66, 0x6E, 0x72, 0x74, 0x75} {
      LoneLetter(c, rest);
    }
    HexFrontIs(rest);
    if !HexFront(rest) {
      LoneU(rest);
    }
  }

  lemma LoneBackslash()
    ensures Unescaped([0x5C]) == []
  {
    assert [0x5C as byte][1..] == [];
  }

  lemma TwoInFront(c: byte, rest: bytes)
    ensures var s := [0x5C, c] + rest; s[0] == 0x5C && s[1] == c && s[2..] == rest && |s| == |rest| + 2
  {
  }

  lemma LoneLetter(c: byte, rest: bytes)
    requires c !in {0x62, 0x66, 0x6E, 0x72, 0x74, 0x75}
    ensures Unescaped([0x5C, c] + rest) == [c] + Unescaped(rest)
  {
    hide Unescaped;
    var s := [0x5C, c] + rest;
    TwoInFront(c, rest);
    assert s[0..] == s;
    UnescapedStep(s, 0, 2, [c]);
  }

  lemma LoneU(rest: bytes)
    requires !IsHex4(rest)
    ensures Unescaped([0x5C, 0x75] + rest) == [0x75] + Unescaped(rest)
  {
    hide Unescaped;
    hide IsHex4;
    var s := [0x5C, 0x75] + rest;
    TwoInFront(0x75, rest);
    assert s[0..] == s;
    UnescapedStep(s, 0, 2, [0x75]);
  }

  /** A surrogate escape that is no half of a pair is written as three bytes of its own. */
  lemma LoneSurrogate(rest: bytes)
    requires HexFront(rest) && 0xD800 <= HexMeaning(rest, 0) <= 0xDFFF && (|rest| == 4 || rest[4] != 0x5C)
    ensures var v := HexMeaning(rest, 0);
            Unescaped([0x5C, 0x75] + rest)
            == [0xED, (0x80 + v / 64 % 64) as byte, (0x80 + v % 64) as byte] + Unescaped(rest[4..])
  {
    hide Unescaped;
    hide Hex4;
    hide IsHex4;
    hide HexMeaning;
    hide HexFront;
    HexFrontIs(rest);
    FrontMeans(rest);
    var s := [0x5C, 0x75] + rest;
    TwoInFront(0x75, rest);
    HexLong(rest);
    assert |s| >= 12 ==> s[6] == s[2..][4];
    assert s[0..] == s;
    assert s[6..] == s[2..][4..];
    Utf8Surrogate(Hex4(rest));
    UnescapedStep(s, 0, 6, Utf8(Hex4(rest)));
  }

  lemma HexLong(s: bytes)
    requires IsHex4(s)
    ensures |s| >= 4
  {
  }

  lemma Utf8Surrogate(v: int)
    requires 0xD800 <= v <= 0xDFFF
    ensures Utf8(v) == [0xED, (0x80 + v / 64 % 64) as byte, (0x80 + v % 64) as byte]
  {
    assert v / 4096 == 13;
  }
}
