/** The byte lexer (src/parser/lexer.c): what a token is, and the scanner that finds it.
    Token kinds and slices follow sections 2, 3, 6 and 7 of RFC 8259; the byte ranges of
    unescaped characters follow section 4 of RFC 3629. */
module Lexing {
  import opened Bytes
  import opened Ast
  import opened Unescape
  import opened Keywords

  // ---------------------------------------------------------------- what a token is

  predicate IsSpace(c: byte) { c == 32 || c == 9 || c == 13 || c == 10 }

  function SkipSpaces(s: bytes, p: nat): (q: nat)
    requires p <= |s|
    ensures p <= q <= |s|
    ensures forall i :: p <= i < q ==> IsSpace(s[i])
    ensures q < |s| ==> !IsSpace(s[q])
    decreases |s| - p
  {
    if p < |s| && IsSpace(s[p]) then SkipSpaces(s, p + 1) else p
  }

  predicate IsDigit(c: byte) { 48 <= c <= 57 }

  predicate InRange(s: bytes, i: nat, lo: byte, hi: byte) {
    i < |s| && lo <= s[i] <= hi
  }

  predicate Continues(s: bytes, i: nat) { InRange(s, i, 0x80, 0xBF) }

  /** Length of the well-formed UTF-8 sequence at `i`, or 0. */
  function Utf8Len(s: bytes, i: nat): (n: nat)
    requires i < |s|
    ensures i + n <= |s|
  {
    var c := s[i];
    if c <= 0x7F then 1
    else if 0xC2 <= c <= 0xDF then (if Continues(s, i + 1) then 2 else 0)
    else if 0xE0 <= c <= 0xEF then
      (if InRange(s, i + 1, if c == 0xE0 then 0xA0 else 0x80, if c == 0xED then 0x9F else 0xBF)
          && Continues(s, i + 2) then 3 else 0)
    else if 0xF0 <= c <= 0xF4 then
      (if InRange(s, i + 1, if c == 0xF0 then 0x90 else 0x80, if c == 0xF4 then 0x8F else 0xBF)
          && Continues(s, i + 2) && Continues(s, i + 3) then 4 else 0)
    else 0
  }

  /** The letters after a backslash that stand for one character. */
  predicate IsShortEscape(c: byte) {
    c == QUOTE || c == BACKSLASH || c == 47 || c == 98 || c == 102 || c == 110 || c == 116 || c == 114
  }

  predicate HexAt(s: bytes, i: nat) {
    i + 4 <= |s| && IsHex(s[i]) && IsHex(s[i + 1]) && IsHex(s[i + 2]) && IsHex(s[i + 3])
  }

  function HexOf(s: bytes, i: nat): (v: int)
    requires HexAt(s, i)
    ensures 0 <= v < 0x10000
  {
    ((HexValue(s[i]) * 16 + HexValue(s[i + 1])) * 16 + HexValue(s[i + 2])) * 16 + HexValue(s[i + 3])
  }

  predicate UEscapeAt(s: bytes, i: nat) {
    i + 6 <= |s| && s[i] == BACKSLASH && s[i + 1] == 117 && HexAt(s, i + 2)
  }

  /** Length of the escape at `i`, or 0: surrogates must come in pairs. */
  function EscapeLen(s: bytes, i: nat): (n: nat)
    requires i < |s| && s[i] == BACKSLASH
    ensures i + n <= |s|
  {
    if i + 1 >= |s| then 0
    else if IsShortEscape(s[i + 1]) then 2
    else if !UEscapeAt(s, i) then 0
    else if HighSurrogate(HexOf(s, i + 2)) then
      (if UEscapeAt(s, i + 6) && LowSurrogate(HexOf(s, i + 8)) then 12 else 0)
    else if LowSurrogate(HexOf(s, i + 2)) then 0
    else 6
  }

  /** Length of the string character at `i`, or 0 if there is none. */
  function CharLen(s: bytes, i: nat): (n: nat)
    requires i < |s|
    ensures i + n <= |s|
  {
    if s[i] == BACKSLASH then EscapeLen(s, i)
    else if s[i] == QUOTE || s[i] < 0x20 then 0
    else Utf8Len(s, i)
  }

  /** Where the closing quote of the string body at `i` is. */
  function StringEnd(s: bytes, i: nat): (e: Option<nat>)
    requires i <= |s|
    ensures e.Some? ==> i <= e.value < |s| && s[e.value] == QUOTE
    decreases |s| - i
  {
    if i == |s| then None
    else if s[i] == QUOTE then Some(i)
    else if CharLen(s, i) == 0 then None
    else StringEnd(s, i + CharLen(s, i))
  }

  function DigitsEnd(s: bytes, i: nat): (e: nat)
    requires i <= |s|
    ensures i <= e <= |s|
    ensures forall j :: i <= j < e ==> IsDigit(s[j])
    ensures e < |s| ==> !IsDigit(s[e])
    decreases |s| - i
  {
    if i < |s| && IsDigit(s[i]) then DigitsEnd(s, i + 1) else i
  }

  predicate ByteAt(s: bytes, i: nat, c: byte) { i < |s| && s[i] == c }

  predicate DigitAt(s: bytes, i: nat) { i < |s| && IsDigit(s[i]) }

  function IntEnd(s: bytes, i: nat): (e: Option<nat>)
    ensures e.Some? ==> i < e.value <= |s|
  {
    if !DigitAt(s, i) then None
    else if s[i] == 48 then (if DigitAt(s, i + 1) then None else Some(i + 1))
    else Some(DigitsEnd(s, i + 1))
  }

  function FracEnd(s: bytes, i: nat): (e: Option<nat>)
    requires i <= |s|
    ensures e.Some? ==> i <= e.value <= |s|
  {
    if !ByteAt(s, i, 46) then Some(i)
    else if DigitAt(s, i + 1) then Some(DigitsEnd(s, i + 1))
    else None
  }

  function SignEnd(s: bytes, i: nat): (e: nat)
    requires i <= |s|
    ensures i <= e <= |s|
  {
    if ByteAt(s, i, 43) || ByteAt(s, i, 45) then i + 1 else i
  }

  function ExpEnd(s: bytes, i: nat): (e: Option<nat>)
    requires i <= |s|
    ensures e.Some? ==> i <= e.value <= |s|
  {
    if !(ByteAt(s, i, 101) || ByteAt(s, i, 69)) then Some(i)
    else if DigitAt(s, SignEnd(s, i + 1)) then Some(DigitsEnd(s, SignEnd(s, i + 1)))
    else None
  }

  /** Where the numeral at `i` ends. */
  function NumberEnd(s: bytes, i: nat): (e: Option<nat>)
    requires i < |s|
    ensures e.Some? ==> i < e.value <= |s|
  {
    var a := IntEnd(s, if s[i] == 45 then i + 1 else i);
    if a.None? then None
    else
      var b := FracEnd(s, a.value);
      if b.None? then None else ExpEnd(s, b.value)
  }

  predicate WordAt(s: bytes, i: nat, w: bytes) {
    i + |w| <= |s| && s[i..i + |w|] == w
  }


  datatype Lexed = EndOfInput | BadToken | Good(tok: Token, next: nat)

  function Punctuation(c: byte): Option<TokenType> {
    if c == 123 then Some(TBraceOpen)
    else if c == 125 then Some(TBraceClose)
    else if c == 91 then Some(TBracketOpen)
    else if c == 93 then Some(TBracketClose)
    else if c == 58 then Some(TColon)
    else if c == 44 then Some(TComma)
    else None
  }

  /** The token that starts at the non-space byte `p`. */
  function LexAt(s: bytes, p: nat): (r: Lexed)
    requires p < |s|
    ensures !r.EndOfInput?
    ensures r.Good? ==> p < r.next <= |s|
  {
    var c := s[p];
    if Punctuation(c).Some? then Good(Token(Punctuation(c).value, [c], false), p + 1)
    else if c == QUOTE then
      (match StringEnd(s, p + 1)
       case None => BadToken
       case Some(e) => Good(Token(TString, s[p + 1..e], BACKSLASH in s[p + 1..e]), e + 1))
    else if c == 45 || IsDigit(c) then
      (match NumberEnd(s, p)
       case None => BadToken
       case Some(e) => Good(Token(TNumber, s[p..e], false), e))
    else if WordAt(s, p, TRUE_WORD) then Good(Token(TTrue, [], false), p + 4)
    else if WordAt(s, p, FALSE_WORD) then Good(Token(TFalse, [], false), p + 5)
    else if WordAt(s, p, NULL_WORD) then Good(Token(TNull, [], false), p + 4)
    else BadToken
  }

  /** The next token at or after `p`. */
  function Lex(s: bytes, p: nat): (r: Lexed)
    requires p <= |s|
    ensures r.Good? ==> p < r.next <= |s|
  {
    var q := SkipSpaces(s, p);
    if q == |s| then EndOfInput else LexAt(s, q)
  }

  const END_TOKEN := Token(TEof, [], false)

  const BAD_TOKEN := Token(TError, [], false)

  /** All tokens from `p` on, up to the end or the first that is malformed. */
  function Tokens(s: bytes, p: nat): (ts: seq<Token>)
    requires p <= |s|
    decreases |s| - p
  {
    match Lex(s, p)
    case EndOfInput => []
    case BadToken => [BAD_TOKEN]
    case Good(tok, next) => [tok] + Tokens(s, next)
  }

  /** Input starts after an optional byte order mark. */
  function StartOf(s: bytes): (p: nat)
    ensures p <= |s|
  {
    if |s| >= 3 && s[0] == 0xEF && s[1] == 0xBB && s[2] == 0xBF then 3 else 0
  }

  // ---------------------------------------------------------------- the scanner

  lemma QuoteEnds(s: bytes, i: nat)
    requires i < |s| && s[i] == QUOTE
    ensures StringEnd(s, i) == Some(i)
  {
  }

  lemma StringEndStep(s: bytes, i: nat)
    requires i < |s| && s[i] != QUOTE && CharLen(s, i) > 0
    ensures StringEnd(s, i) == StringEnd(s, i + CharLen(s, i))
  {
    hide CharLen;
  }

  /** Only an escape contains a backslash. */
  lemma CharBackslash(s: bytes, i: nat)
    requires i < |s| && CharLen(s, i) > 0
    ensures BACKSLASH in s[i..i + CharLen(s, i)] <==> s[i] == BACKSLASH
  {
    hide HexOf;
    hide HexAt;
    assert s[i..i + CharLen(s, i)][0] == s[i];
  }

  lemma BackslashAppend(s: bytes, a: nat, b: nat, c: nat)
    requires a <= b <= c <= |s|
    ensures BACKSLASH in s[a..c] <==> BACKSLASH in s[a..b] || BACKSLASH in s[b..c]
  {
    assert s[a..c] == s[a..b] + s[b..c];
  }

  class Lexer {
    const source: bytes
    var pos: nat

    ghost predicate Valid()
      reads this
    {
      pos <= |source|
    }

    /** `lexer_init`. */
    constructor (s: bytes)
      ensures Valid() && source == s && pos == StartOf(s)
    {
      source := s;
      pos := if |s| >= 3 && s[0] == 0xEF && s[1] == 0xBB && s[2] == 0xBF then 3 else 0;
    }

    method SkipWhitespace()
      requires Valid()
      modifies this
      ensures Valid() && pos == SkipSpaces(source, old(pos))
    {
      while pos < |source| && IsSpace(source[pos])
        invariant Valid() && SkipSpaces(source, pos) == SkipSpaces(source, old(pos))
      {
        pos := pos + 1;
      }
    }

    method SkipDigits()
      requires Valid()
      modifies this
      ensures Valid() && pos == DigitsEnd(source, old(pos))
    {
      while pos < |source| && IsDigit(source[pos])
        invariant Valid() && DigitsEnd(source, pos) == DigitsEnd(source, old(pos))
      {
        pos := pos + 1;
      }
    }

    /** The digits of a `\u` escape; `v` is their value. */
    method ReadHex(at: nat) returns (ok: bool, v: int)
      requires Valid()
      ensures ok == HexAt(source, at)
      ensures ok ==> v == HexOf(source, at)
    {
      v := 0;
      ok := false;
      if at + 4 <= |source| && IsHex(source[at]) && IsHex(source[at + 1]) && IsHex(source[at + 2]) && IsHex(source[at + 3]) {
        v := ((HexValue(source[at]) * 16 + HexValue(source[at + 1])) * 16 + HexValue(source[at + 2])) * 16 + HexValue(source[at + 3]);
        ok := true;
      }
    }

    /** The escape at the cursor; the cursor moves past it when it is well formed. */
    method ScanEscape() returns (ok: bool)
      requires Valid() && pos < |source| && source[pos] == BACKSLASH
      modifies this
      ensures Valid() && old(pos) <= pos && ok == (EscapeLen(source, old(pos)) > 0)
      ensures ok ==> pos == old(pos) + EscapeLen(source, old(pos))
    {
      hide HexOf;
      hide HexAt;
      ghost var start := pos;
      pos := pos + 1;
      if pos >= |source| {
        return false;
      }
      var e := source[pos];
      if IsShortEscape(e) {
        pos := pos + 1;
        return true;
      }
      if e != 117 {
        return false;
      }
      var hex, u1 := ReadHex(pos + 1);
      HexFits(source, pos + 1);
      if !hex {
        return false;
      }
      pos := pos + 5;
      if HighSurrogate(u1) {
        if pos + 6 <= |source| && source[pos] == BACKSLASH && source[pos + 1] == 117 {
          var hex2, u2 := ReadHex(pos + 2);
          if hex2 && LowSurrogate(u2) {
            pos := pos + 6;
            return true;
          }
        }
        return false;
      }
      ok := !LowSurrogate(u1);
    }

    /** `parse_string`: the cursor stands behind the opening quote. */
    method ParseString() returns (r: Lexed)
      requires Valid()
      modifies this
      ensures Valid() && old(pos) <= pos
      ensures r == match StringEnd(source, old(pos))
                   case None => BadToken
                   case Some(e) => Good(Token(TString, source[old(pos)..e], BACKSLASH in source[old(pos)..e]), e + 1)
      ensures r.Good? ==> pos == r.next
    {
      hide CharLen;
      var start := pos;
      var escaped := false;
      assert source[start..start] == [];
      while pos < |source|
        invariant Valid() && start <= pos
        invariant StringEnd(source, pos) == StringEnd(source, start)
        invariant escaped <==> BACKSLASH in source[start..pos]
        decreases |source| - pos
      {
        var c := source[pos];
        ghost var at := pos;
        if c == QUOTE {
          pos := pos + 1;
          return Good(Token(TString, source[start..pos - 1], escaped), pos);
        }
        CharIs(source, pos);
        if c == BACKSLASH {
          var ok := ScanEscape();
          if !ok {
            return BadToken;
          }
          escaped := true;
        } else {
          if c < 0x20 || Utf8Len(source, pos) == 0 {
            return BadToken;
          }
          pos := pos + Utf8Len(source, pos);
        }
        StringEndStep(source, at);
        CharBackslash(source, at);
        BackslashAppend(source, start, at, pos);
      }
      r := BadToken;
    }

    /** The integer part of a numeral, whose first byte `start` is already behind the cursor. */
    method ScanInteger(start: nat) returns (ok: bool)
      requires Valid() && start < |source| && pos == start + 1 && (source[start] == 45 || IsDigit(source[start]))
      modifies this
      ensures Valid() && old(pos) <= pos
      ensures IntEnd(source, if source[start] == 45 then start + 1 else start) == if ok then Some(pos) else None
    {
      var first := source[start];
      if first == 45 {
        if pos >= |source| || !IsDigit(source[pos]) {
          return false;
        }
        first := source[pos];
        pos := pos + 1;
      }
      ok := true;
      if first == 48 {
        ok := !(pos < |source| && IsDigit(source[pos]));
      } else {
        SkipDigits();
      }
    }

    method ScanFraction() returns (ok: bool)
      requires Valid()
      modifies this
      ensures Valid() && old(pos) <= pos
      ensures FracEnd(source, old(pos)) == if ok then Some(pos) else None
    {
      ok := true;
      if pos < |source| && source[pos] == 46 {
        pos := pos + 1;
        if pos >= |source| || !IsDigit(source[pos]) {
          return false;
        }
        SkipDigits();
      }
    }

    method ScanExponent() returns (ok: bool)
      requires Valid()
      modifies this
      ensures Valid() && old(pos) <= pos
      ensures ExpEnd(source, old(pos)) == if ok then Some(pos) else None
    {
      ok := true;
      if pos < |source| && (source[pos] == 101 || source[pos] == 69) {
        pos := pos + 1;
        if pos < |source| && (source[pos] == 43 || source[pos] == 45) {
          pos := pos + 1;
        }
        if pos >= |source| || !IsDigit(source[pos]) {
          return false;
        }
        SkipDigits();
      }
    }

    /** `parse_number`. */
    method ParseNumber(start: nat) returns (r: Lexed)
      requires Valid() && start < |source| && pos == start + 1 && (source[start] == 45 || IsDigit(source[start]))
      modifies this
      ensures Valid() && old(pos) <= pos
      ensures r == match NumberEnd(source, start)
                   case None => BadToken
                   case Some(e) => Good(Token(TNumber, source[start..e], false), e)
      ensures r.Good? ==> pos == r.next
    {
      hide IntEnd;
      hide FracEnd;
      hide ExpEnd;
      var ok := ScanInteger(start);
      if !ok {
        return BadToken;
      }
      ok := ScanFraction();
      if !ok {
        return BadToken;
      }
      ok := ScanExponent();
      r := if ok then Good(Token(TNumber, source[start..pos], false), pos) else BadToken;
    }

    /** `parse_literal`. */
    method ParseLiteral(start: nat) returns (r: Lexed)
      requires Valid() && start < |source| && pos == start + 1
      modifies this
      ensures Valid() && old(pos) <= pos
      ensures r == if WordAt(source, start, TRUE_WORD) then Good(Token(TTrue, [], false), start + 4)
                   else if WordAt(source, start, FALSE_WORD) then Good(Token(TFalse, [], false), start + 5)
                   else if WordAt(source, start, NULL_WORD) then Good(Token(TNull, [], false), start + 4)
                   else BadToken
      ensures r.Good? ==> pos == r.next
    {
      var s := source;
      Word4(s, start, TRUE_WORD);
      Word5(s, start, FALSE_WORD);
      Word4(s, start, NULL_WORD);
      if s[start] == 116 && pos + 3 <= |s| && s[pos] == 114 && s[pos + 1] == 117 && s[pos + 2] == 101 {
        pos := pos + 3;
        return Good(Token(TTrue, [], false), pos);
      }
      if s[start] == 102 && pos + 4 <= |s| && s[pos] == 97 && s[pos + 1] == 108 && s[pos + 2] == 115 && s[pos + 3] == 101 {
        pos := pos + 4;
        return Good(Token(TFalse, [], false), pos);
      }
      if s[start] == 110 && pos + 3 <= |s| && s[pos] == 117 && s[pos + 1] == 108 && s[pos + 2] == 108 {
        pos := pos + 3;
        return Good(Token(TNull, [], false), pos);
      }
      r := BadToken;
    }

    /** `lexer_next_token`. After a malformed token the cursor is somewhere in the input. */
    method NextToken() returns (tok: Token)
      requires Valid()
      modifies this
      ensures Valid() && old(pos) <= pos
      ensures tok == match Lex(source, old(pos))
                     case EndOfInput => END_TOKEN
                     case BadToken => BAD_TOKEN
                     case Good(t, _) => t
      ensures match Lex(source, old(pos))
              case EndOfInput => pos == |source|
              case BadToken => true
              case Good(_, next) => pos == next
    {
      hide StringEnd;
      hide NumberEnd;
      hide WordAt;
      hide SkipSpaces;
      SkipWhitespace();
      if pos >= |source| {
        return END_TOKEN;
      }
      var start := pos;
      var c := source[pos];
      pos := pos + 1;
      var r := BadToken;
      if Punctuation(c).Some? {
        return Token(Punctuation(c).value, [c], false);
      } else if c == QUOTE {
        r := ParseString();
      } else if c == 45 || IsDigit(c) {
        r := ParseNumber(start);
      } else if c == 116 || c == 102 || c == 110 {
        r := ParseLiteral(start);
      }
      WordsStart(source, start);
      tok := if r.Good? then r.tok else BAD_TOKEN;
    }
  }

  lemma HexFits(s: bytes, i: nat)
    ensures HexAt(s, i) ==> i + 4 <= |s|
  {
  }

  lemma CharIs(s: bytes, i: nat)
    requires i < |s|
    ensures CharLen(s, i) == if s[i] == BACKSLASH then EscapeLen(s, i) else if s[i] == QUOTE || s[i] < 0x20 then 0 else Utf8Len(s, i)
  {
    hide EscapeLen;
    hide Utf8Len;
  }

  lemma Word4(s: bytes, i: nat, w: bytes)
    requires |w| == 4
    ensures WordAt(s, i, w) <==> i + 4 <= |s| && s[i] == w[0] && s[i + 1] == w[1] && s[i + 2] == w[2] && s[i + 3] == w[3]
  {
    if i + 4 <= |s| {
      var x := s[i..i + 4];
      assert x[0] == s[i] && x[1] == s[i + 1] && x[2] == s[i + 2] && x[3] == s[i + 3];
    }
  }

  lemma Word5(s: bytes, i: nat, w: bytes)
    requires |w| == 5
    ensures WordAt(s, i, w) <==>
            i + 5 <= |s| && s[i] == w[0] && s[i + 1] == w[1] && s[i + 2] == w[2] && s[i + 3] == w[3] && s[i + 4] == w[4]
  {
    if i + 5 <= |s| {
      var x := s[i..i + 5];
      assert x[0] == s[i] && x[1] == s[i + 1] && x[2] == s[i + 2] && x[3] == s[i + 3] && x[4] == s[i + 4];
    }
  }

  lemma WordsStart(s: bytes, i: nat)
    requires i < |s|
    ensures WordAt(s, i, TRUE_WORD) ==> s[i] == 116
    ensures WordAt(s, i, FALSE_WORD) ==> s[i] == 102
    ensures WordAt(s, i, NULL_WORD) ==> s[i] == 110
  {
    Word4(s, i, TRUE_WORD);
    Word5(s, i, FALSE_WORD);
    Word4(s, i, NULL_WORD);
  }
}
