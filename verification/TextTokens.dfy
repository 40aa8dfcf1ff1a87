/** The lexer and the token grammar together read exactly the texts RFC 8259 derives, but for
    unpaired surrogate escapes. */
module TextTokens {
  import opened Bytes
  import opened Ast
  import opened Unescape
  import opened Lexing
  import opened Strings
  import opened Numerals
  import opened Grammar
  import opened TextGrammar

  // ---------------------------------------------------------------- string bodies

  lemma BodyCons(cs: seq<Char>)
    requires CharsOk(cs) && cs != []
    ensures CharsOk(cs[1..]) && CharOk(cs[0]) && Body(cs) == Written(cs[0]) + Body(cs[1..])
  {
    hide Written;
  }

  lemma BodyNone()
    ensures CharsOk([]) && Body([]) == [] && Paired([])
  {
  }

  lemma BodyJoin(c: Char, cs: seq<Char>)
    requires CharOk(c) && CharsOk(cs)
    ensures CharsOk([c] + cs) && Body([c] + cs) == Written(c) + Body(cs)
  {
    hide Written;
    hide CharOk;
    assert ([c] + cs)[1..] == cs;
  }

  /** Behind a character that is no high surrogate everything is still paired. */
  lemma PairedRest(cs: seq<Char>, n: nat)
    requires Paired(cs) && n <= |cs| && (n > 0 ==> !IsHigh(cs[n - 1]))
    ensures Paired(cs[n..])
  {
    hide IsHigh;
    hide IsLow;
    var ds := cs[n..];
    forall k | 0 <= k < |ds| ensures PairedAt(ds, k) {
      assert PairedAt(cs, n + k);
      assert ds[k] == cs[n + k];
    }
  }

  lemma PairedHead(cs: seq<Char>)
    requires Paired(cs) && cs != []
    ensures !IsLow(cs[0]) && (IsHigh(cs[0]) ==> |cs| > 1 && IsLow(cs[1]) && !IsHigh(cs[1]))
  {
    hide Hex4;
    assert PairedAt(cs, 0);
  }

  lemma PairedOne(c: Char, cs: seq<Char>)
    requires Paired(cs) && !IsHigh(c) && !IsLow(c)
    ensures Paired([c] + cs)
  {
    hide IsHigh;
    hide IsLow;
    var ds := [c] + cs;
    forall k | 0 <= k < |ds| ensures PairedAt(ds, k) {
      if k > 0 {
        assert PairedAt(cs, k - 1);
        assert ds[k] == cs[k - 1];
      }
    }
  }

  lemma PairedTwo(h: Char, l: Char, cs: seq<Char>)
    requires Paired(cs) && IsHigh(h) && IsLow(l)
    ensures Paired([h] + ([l] + cs))
  {
    hide Hex4;
    var ds := [h] + ([l] + cs);
    forall k | 0 <= k < |ds| ensures PairedAt(ds, k) {
      if k > 1 {
        assert PairedAt(cs, k - 2);
        assert ds[k] == cs[k - 2];
      }
    }
  }

  // ---------------------------------------------------------------- characters

  /** A raw character or a short escape is read as it is written. */
  lemma ShortRead(s: bytes, p: nat, c: Char)
    requires CharOk(c) && !c.Unicode? && Here(s, p, Written(c))
    ensures p < |s| && s[p] != QUOTE && CharLen(s, p) == |Written(c)|
  {
    hide Utf8;
    hide Utf8Len;
    assert s[p] == s[p..p + |Written(c)|][0];
    match c {
      case Raw(cp) =>
        FirstByte(s, p, cp);
        EncodedAccepted(s, p, cp);
        RawLead(cp);
      case Short(e) =>
        assert s[p + 1] == s[p..p + 2][1];
      case _ =>
    }
  }

  lemma RawLead(cp: int)
    requires Scalar(cp) && cp >= 0x20 && cp != 0x22 && cp != 0x5C
    ensures Utf8(cp)[0] != BACKSLASH && Utf8(cp)[0] != QUOTE
  {
  }

  lemma UnicodeHere(s: bytes, p: nat, c: Char)
    requires CharOk(c) && c.Unicode? && Here(s, p, Written(c))
    ensures |Written(c)| == 6 && p + 6 <= |s| && s[p] == BACKSLASH && UEscapeAt(s, p)
    ensures HexOf(s, p + 2) == Hex4(c.hex) && IsHex4(c.hex)
  {
    var w := Written(c);
    var t := s[p..p + 6];
    assert t == w;
    assert s[p] == t[0] && s[p + 1] == t[1] && s[p + 2] == t[2] && s[p + 3] == t[3] && s[p + 4] == t[4] && s[p + 5] == t[5];
    assert w[2] == c.hex[0] && w[3] == c.hex[1] && w[4] == c.hex[2] && w[5] == c.hex[3];
  }

  lemma HexClasses(c: byte)
    requires HexByte(c)
    ensures IsHex(c) && (HexValue(c) == 13 <==> c in {0x44, 0x64})
    ensures 8 <= HexValue(c) <= 11 <==> c in {0x38, 0x39, 0x41, 0x42, 0x61, 0x62}
    ensures 12 <= HexValue(c) <==> c in {0x43, 0x44, 0x45, 0x46, 0x63, 0x64, 0x65, 0x66}
  {
  }

  /** The letters tell whether the four digits are a surrogate. */
  lemma SurrogatesAre(c: Char)
    requires CharOk(c) && c.Unicode?
    ensures IsHex4(c.hex) && (IsHigh(c) <==> HighSurrogate(Hex4(c.hex))) && (IsLow(c) <==> LowSurrogate(Hex4(c.hex)))
  {
    hide HexValue;
    HexClasses(c.hex[0]);
    HexClasses(c.hex[1]);
    HexClasses(c.hex[2]);
    HexClasses(c.hex[3]);
  }

  /** A `\u` escape that is no surrogate, or a pair of surrogates, is one character. */
  lemma UnicodeRead(s: bytes, p: nat, c: Char)
    requires CharOk(c) && c.Unicode? && Here(s, p, Written(c)) && !IsHigh(c) && !IsLow(c)
    ensures p < |s| && s[p] != QUOTE && CharLen(s, p) == |Written(c)| == 6
  {
    hide HexOf;
    hide Hex4;
    hide IsHex4;
    hide HexAt;
    hide Written;
    hide IsHigh;
    hide IsLow;
    SurrogatesAre(c);
    UnicodeHere(s, p, c);
  }

  lemma PairRead(s: bytes, p: nat, h: Char, l: Char)
    requires CharOk(h) && CharOk(l) && IsHigh(h) && IsLow(l) && Here(s, p, Written(h)) && Here(s, p + 6, Written(l))
    ensures p < |s| && s[p] != QUOTE && CharLen(s, p) == 12 && |Written(h)| == 6 && |Written(l)| == 6
  {
    hide HexOf;
    hide Hex4;
    hide IsHex4;
    hide HexAt;
    hide Written;
    HighIs(h, l);
    hide IsHigh;
    hide IsLow;
    SurrogatesAre(h);
    SurrogatesAre(l);
    UnicodeHere(s, p, h);
    UnicodeHere(s, p + 6, l);
  }

  // ---------------------------------------------------------------- bodies are read

  /** A written body without unpaired surrogates is read to its closing quote. */
  lemma {:induction false} BodyIsRead(s: bytes, p: nat, cs: seq<Char>)
    requires CharsOk(cs) && Paired(cs) && Here(s, p, Body(cs)) && ByteAt(s, p + |Body(cs)|, QUOTE)
    ensures StringEnd(s, p) == Some(p + |Body(cs)|)
    decreases |cs|
  {
    hide *;
    BodyBound(s, p, Body(cs));
    if cs == [] {
      BodyNone();
      QuoteEnds(s, p);
    } else {
      var c, rest := cs[0], cs[1..];
      BodyCons(cs);
      PairedHead(cs);
      HereSplit(s, p, Written(c), Body(rest));
      var q := p + |Written(c)|;
      if IsHigh(c) {
        var l, more := rest[0], rest[1..];
        assert rest[0] == cs[1] && more == cs[2..];
        BodyCons(rest);
        HereSplit(s, q, Written(l), Body(more));
        HighIs(c, l);
        UnicodeHere(s, p, c);
        PairRead(s, p, c, l);
        PairedRest(cs, 2);
        StringEndStep(s, p);
        BodyIsRead(s, p + 12, more);
      } else {
        if c.Unicode? {
          UnicodeRead(s, p, c);
        } else {
          ShortRead(s, p, c);
        }
        WrittenSome(c);
        StringEndStep(s, p);
        PairedRest(cs, 1);
        BodyIsRead(s, q, rest);
      }
    }
  }

  lemma BodyBound(s: bytes, p: nat, b: bytes)
    requires Here(s, p, b) && ByteAt(s, p + |b|, QUOTE)
    ensures p + |b| < |s| && s[p + |b|] == QUOTE
  {
  }

  lemma HighIs(h: Char, l: Char)
    requires IsHigh(h) && IsLow(l)
    ensures h.Unicode? && l.Unicode?
  {
  }

  lemma WrittenSome(c: Char)
    requires CharOk(c)
    ensures |Written(c)| > 0
  {
    hide *;
  }

  // ---------------------------------------------------------------- what is read is written

  /** The characters of an accepted body. */
  lemma {:induction false} BodyOfRead(s: bytes, p: nat) returns (cs: seq<Char>)
    requires p <= |s| && StringEnd(s, p).Some?
    ensures p <= StringEnd(s, p).value < |s|
    ensures IsWritten(s[p..StringEnd(s, p).value], cs) && Paired(cs)
    decreases |s| - p
  {
    hide *;
    var e := StringEnd(s, p).value;
    StringEndForms(s, p);
    if s[p] == QUOTE {
      cs := [];
      BodyNone();
      assert s[p..e] == [];
      MakeWritten(s[p..e], cs);
    } else {
      var n := CharLen(s, p);
      var rest := BodyOfRead(s, p + n);
      WrittenMeans(s[p + n..e], rest);
      cs := CharsAt(s, p, rest);
      assert s[p..e] == s[p..p + n] + s[p + n..e];
      MakeWritten(s[p..e], cs);
    }
  }

  lemma MakeWritten(raw: bytes, cs: seq<Char>)
    requires CharsOk(cs) && Body(cs) == raw
    ensures IsWritten(raw, cs)
  {
    hide Body;
    hide CharsOk;
  }

  lemma WrittenMeans(raw: bytes, cs: seq<Char>)
    requires IsWritten(raw, cs)
    ensures CharsOk(cs) && Body(cs) == raw
  {
    hide Body;
    hide CharsOk;
  }

  /** The accepted character at `p`, put in front. */
  lemma CharsAt(s: bytes, p: nat, rest: seq<Char>) returns (cs: seq<Char>)
    requires p < |s| && s[p] != QUOTE && CharLen(s, p) > 0 && CharsOk(rest) && Paired(rest)
    ensures p + CharLen(s, p) <= |s| && CharsOk(cs) && Paired(cs)
    ensures Body(cs) == s[p..p + CharLen(s, p)] + Body(rest)
  {
    hide *;
    var n := CharLen(s, p);
    LenFits(s, p);
    if s[p] != BACKSLASH {
      var c := RawAt(s, p);
      BodyJoin(c, rest);
      PairedOne(c, rest);
      cs := [c] + rest;
    } else {
      EscapeForms(s, p);
      if n == 2 {
        var c := Short(s[p + 1]);
        ShortAt(s, p);
        BodyJoin(c, rest);
        PairedOne(c, rest);
        cs := [c] + rest;
      } else {
        var c := UnicodeAt(s, p);
        if n == 6 {
          BodyJoin(c, rest);
          PairedOne(c, rest);
          cs := [c] + rest;
        } else {
          var l := UnicodeAt(s, p + 6);
          BodyJoin(l, rest);
          BodyJoin(c, [l] + rest);
          PairedTwo(c, l, rest);
          cs := [c] + ([l] + rest);
          assert s[p..p + 12] == s[p..p + 6] + s[p + 6..p + 12];
          Regroup(s[p..p + 6], s[p + 6..p + 12], Body(rest));
        }
      }
    }
  }

  lemma LenFits(s: bytes, p: nat)
    requires p < |s|
    ensures p + CharLen(s, p) <= |s|
  {
    hide *;
  }

  lemma RawAt(s: bytes, p: nat) returns (c: Char)
    requires p < |s| && s[p] != QUOTE && s[p] != BACKSLASH && CharLen(s, p) > 0
    ensures CharOk(c) && !IsHigh(c) && !IsLow(c) && p + CharLen(s, p) <= |s| && Written(c) == s[p..p + CharLen(s, p)]
  {
    hide Utf8;
    hide Utf8Len;
    hide RawPoint;
    CharIs(s, p);
    RawEncodes(s, p);
    c := Raw(RawPoint(s, p));
  }

  lemma ShortAt(s: bytes, p: nat)
    requires p + 1 < |s| && s[p] == BACKSLASH && IsShortEscape(s[p + 1])
    ensures var c := Short(s[p + 1]);
            CharOk(c) && !IsHigh(c) && !IsLow(c) && p + 2 <= |s| && Written(c) == s[p..p + 2]
  {
  }

  lemma UnicodeAt(s: bytes, p: nat) returns (c: Char)
    requires UEscapeAt(s, p)
    ensures CharOk(c) && p + 6 <= |s| && Written(c) == s[p..p + 6] && HexAt(s, p + 2)
    ensures IsHigh(c) <==> HighSurrogate(HexOf(s, p + 2))
    ensures IsLow(c) <==> LowSurrogate(HexOf(s, p + 2))
  {
    hide HexValue;
    hide IsHigh;
    hide IsLow;
    hide HighSurrogate;
    hide LowSurrogate;
    var hex := s[p + 2..p + 6];
    c := Unicode(hex);
    assert CharOk(c);
    SurrogatesAre(c);
    assert hex[0] == s[p + 2] && hex[1] == s[p + 3] && hex[2] == s[p + 4] && hex[3] == s[p + 5];
    assert s[p..p + 6] == [s[p], s[p + 1]] + hex;
  }

  // ---------------------------------------------------------------- bodies are unambiguous

  lemma Utf8Same(a: int, b: int)
    requires Scalar(a) && Scalar(b) && Utf8(a) == Utf8(b)
    ensures a == b
  {
    Utf8Back(a);
    Utf8Back(b);
    var u, v := Utf8(a), Utf8(b);
    assert u[0] == v[0] && |u| == |v|;
    if |u| >= 2 {
      assert u[1] == v[1];
    }
    if |u| >= 3 {
      assert u[2] == v[2];
    }
    if |u| >= 4 {
      assert u[3] == v[3];
    }
  }

  lemma Utf8Back(cp: int)
    requires Scalar(cp)
    ensures var u := Utf8(cp);
            && (|u| == 1 ==> cp == u[0] as int)
            && (|u| == 2 ==> cp == Lead2(u[0], u[1]))
            && (|u| == 3 ==> cp == Lead3(u[0], u[1], u[2]))
            && (|u| == 4 ==> cp == Lead4(u[0], u[1], u[2], u[3]))
  {
    DivTwice(cp, 64, 64);
    DivTwice(cp, 4096, 64);
  }

  /** Two characters at the front of the same bytes are the same. */
  lemma CharUnique(c: Char, d: Char, x: bytes, y: bytes)
    requires CharOk(c) && CharOk(d) && Written(c) + x == Written(d) + y
    ensures c == d
  {
    hide Utf8;
    hide Utf8Len;
    hide Hex4;
    hide IsHex4;
    var u, v := Written(c), Written(d);
    var s := u + x;
    assert s[..|u|] == u && s[..|v|] == v;
    assert s[0] == u[0] == v[0];
    if c.Raw? {
      RawLead(c.cp);
    }
    if d.Raw? {
      RawLead(d.cp);
    }
    if c.Raw? && d.Raw? {
      assert s[0..0 + |u|] == u && s[0..0 + |v|] == v;
      EncodedAccepted(s, 0, c.cp);
      EncodedAccepted(s, 0, d.cp);
      Utf8Same(c.cp, d.cp);
    } else if !c.Raw? && !d.Raw? {
      assert s[1] == u[1] == v[1];
      if c.Unicode? && d.Unicode? {
        assert u == v;
        assert u[2..] == c.hex && v[2..] == d.hex;
      }
    }
  }

  /** A body is spelled by one sequence of characters, so that having an unpaired surrogate
      escape is a property of its bytes. */
  lemma {:induction false} BodyUnique(cs: seq<Char>, ds: seq<Char>)
    requires CharsOk(cs) && CharsOk(ds) && Body(cs) == Body(ds)
    ensures cs == ds
    decreases |cs|
  {
    hide *;
    BodyNone();
    if cs == [] || ds == [] {
      if cs != [] {
        BodyCons(cs);
        WrittenSome(cs[0]);
      }
      if ds != [] {
        BodyCons(ds);
        WrittenSome(ds[0]);
      }
    } else {
      BodyCons(cs);
      BodyCons(ds);
      CharUnique(cs[0], ds[0], Body(cs[1..]), Body(ds[1..]));
      var n := |Written(cs[0])|;
      assert Body(cs)[n..] == Body(cs[1..]);
      assert Body(ds)[n..] == Body(ds[1..]);
      BodyUnique(cs[1..], ds[1..]);
      assert cs == [cs[0]] + cs[1..] && ds == [ds[0]] + ds[1..];
    }
  }

  // ---------------------------------------------------------------- leaves

  lemma StringLexed(s: bytes, i: nat, j: nat, tok: Token)
    requires DerivesString(s, i, j, tok) && PairedToken(tok)
    ensures i < |s| && LexAt(s, i) == Good(tok, j) && i < j <= |s|
  {
    hide *;
    StringMeans(s, i, j, tok);
    var cs: seq<Char> :| IsWritten(tok.raw, cs) && Paired(cs);
    WrittenMeans(tok.raw, cs);
    BodyIsRead(s, i + 1, cs);
    QuoteLexed(s, i);
  }

  lemma StringMeans(s: bytes, i: nat, j: nat, tok: Token)
    requires DerivesString(s, i, j, tok) && PairedToken(tok)
    ensures tok == Token(TString, tok.raw, BACKSLASH in tok.raw) && j == i + |tok.raw| + 2 <= |s|
    ensures ByteAt(s, i, QUOTE) && Here(s, i + 1, tok.raw) && ByteAt(s, i + 1 + |tok.raw|, QUOTE)
    ensures i < |s| && s[i + 1..i + 1 + |tok.raw|] == tok.raw
    ensures exists cs: seq<Char> :: IsWritten(tok.raw, cs) && Paired(cs)
  {
    hide IsBody;
    hide IsWritten;
    hide Paired;
    HereSplit(s, i, [QUOTE] + tok.raw, [QUOTE]);
    HereSplit(s, i, [QUOTE], tok.raw);
    assert s[i..i + 1][0] == QUOTE;
    var k := i + 1 + |tok.raw|;
    assert s[k..k + 1][0] == QUOTE;
  }

  lemma QuoteLexed(s: bytes, i: nat)
    requires ByteAt(s, i, QUOTE)
    ensures i < |s| && LexAt(s, i) == match StringEnd(s, i + 1)
                          case None => BadToken
                          case Some(e) => Good(Token(TString, s[i + 1..e], BACKSLASH in s[i + 1..e]), e + 1)
  {
    hide StringEnd;
  }

  lemma NumberLexed(s: bytes, i: nat, j: nat, tok: Token)
    requires DerivesNumber(s, i, j, tok) && Stops(s, j)
    ensures i < j <= |s| && LexAt(s, i) == Good(tok, j)
  {
    hide NumberEnd;
    hide StringEnd;
    hide WordAt;
    NumberComplete(s, i, j);
    NumeralStart(s, i, j);
  }

  lemma NumeralStart(s: bytes, i: nat, j: nat)
    requires Numeral(s, i, j)
    ensures i < j && i < |s| && (s[i] == 45 || IsDigit(s[i]))
  {
    var a: nat, b: nat, c: nat :| SplitAt(s, i, a, b, c, j);
    Leads(s, i, a, b, c, j);
  }

  lemma WordLexed(s: bytes, i: nat, j: nat, tok: Token)
    requires DerivesWord(s, i, j, tok, TTrue, TRUE_WORD) || DerivesWord(s, i, j, tok, TFalse, FALSE_WORD)
             || DerivesWord(s, i, j, tok, TNull, NULL_WORD)
    ensures i < j <= |s| && LexAt(s, i) == Good(tok, j)
  {
    hide StringEnd;
    hide NumberEnd;
    WordsStart(s, i);
  }

  lemma LeafLexed(s: bytes, i: nat, j: nat, tok: Token)
    requires DerivesLeaf(s, i, j, tok) && PairedToken(tok) && Stops(s, j)
    ensures i < j <= |s| && LexAt(s, i) == Good(tok, j) && LiteralKind(tok.kind)
  {
    hide DerivesString;
    hide DerivesNumber;
    hide DerivesWord;
    hide PairedToken;
    hide LexAt;
    hide Stops;
    if DerivesString(s, i, j, tok) {
      StringLexed(s, i, j, tok);
      LeafKinds(s, i, j, tok);
    } else if DerivesNumber(s, i, j, tok) {
      NumberLexed(s, i, j, tok);
      LeafKinds(s, i, j, tok);
    } else {
      WordLexed(s, i, j, tok);
      LeafKinds(s, i, j, tok);
    }
  }

  lemma LeafKinds(s: bytes, i: nat, j: nat, tok: Token)
    requires DerivesLeaf(s, i, j, tok)
    ensures LiteralKind(tok.kind) && (DerivesString(s, i, j, tok) <==> tok.kind == TString)
  {
    hide IsBody;
    hide Here;
    hide Numeral;
  }

  /** What is read as a leaf is derived as one, without unpaired surrogates. */
  lemma LeafWritten(s: bytes, q: nat)
    requires q < |s| && LexAt(s, q).Good? && LiteralKind(LexAt(s, q).tok.kind)
    ensures DerivesLeaf(s, q, LexAt(s, q).next, LexAt(s, q).tok) && PairedToken(LexAt(s, q).tok)
  {
    hide *;
    LexCases(s, q);
    var tok, e := LexAt(s, q).tok, LexAt(s, q).next;
    if s[q] == QUOTE {
      var cs := BodyOfRead(s, q + 1);
      StringWritten(s, q, cs);
    } else if s[q] == 45 || IsDigit(s[q]) {
      NumberSound(s, q);
      NumberWritten(s, q);
    } else {
      WordWritten(s, q);
    }
  }

  lemma LexCases(s: bytes, q: nat)
    requires q < |s| && LexAt(s, q).Good? && LiteralKind(LexAt(s, q).tok.kind)
    ensures q + 1 <= |s|
    ensures s[q] == QUOTE ==> StringEnd(s, q + 1).Some?
    ensures s[q] != QUOTE && (s[q] == 45 || IsDigit(s[q])) ==> NumberEnd(s, q).Some?
  {
    hide StringEnd;
    hide NumberEnd;
    hide WordAt;
  }

  lemma StringWritten(s: bytes, q: nat, cs: seq<Char>)
    requires q < |s| && s[q] == QUOTE && StringEnd(s, q + 1).Some?
    requires IsWritten(s[q + 1..StringEnd(s, q + 1).value], cs) && Paired(cs)
    ensures LexAt(s, q).Good? && DerivesLeaf(s, q, LexAt(s, q).next, LexAt(s, q).tok) && PairedToken(LexAt(s, q).tok)
  {
    hide StringEnd;
    hide IsWritten;
    hide Paired;
    hide IsBody;
    hide IsPairedBody;
    hide DerivesString;
    hide DerivesLeaf;
    hide PairedToken;
    hide LexAt;
    QuoteLexed(s, q);
    var e := StringEnd(s, q + 1).value;
    BodyIsPaired(s[q + 1..e], cs);
    StringThere(s, q, e);
    StringIsLeaf(s, q, e + 1, LexAt(s, q).tok);
  }

  lemma BodyIsPaired(raw: bytes, cs: seq<Char>)
    requires IsWritten(raw, cs) && Paired(cs)
    ensures IsBody(raw) && IsPairedBody(raw)
  {
    hide IsWritten;
    hide Paired;
  }

  lemma StringThere(s: bytes, q: nat, e: nat)
    requires q + 1 <= e < |s| && s[q] == QUOTE && s[e] == QUOTE && IsBody(s[q + 1..e]) && IsPairedBody(s[q + 1..e])
    ensures var tok := Token(TString, s[q + 1..e], BACKSLASH in s[q + 1..e]);
            DerivesString(s, q, e + 1, tok) && PairedToken(tok)
  {
    hide IsBody;
    hide IsPairedBody;
    assert s[q..e + 1] == [QUOTE] + s[q + 1..e] + [QUOTE];
  }

  lemma StringIsLeaf(s: bytes, i: nat, j: nat, tok: Token)
    requires DerivesString(s, i, j, tok)
    ensures DerivesLeaf(s, i, j, tok)
  {
    hide DerivesString;
    hide DerivesNumber;
    hide DerivesWord;
  }

  lemma NumberWritten(s: bytes, q: nat)
    requires q < |s| && s[q] != QUOTE && (s[q] == 45 || IsDigit(s[q])) && NumberEnd(s, q).Some? && Numeral(s, q, NumberEnd(s, q).value)
    ensures LexAt(s, q).Good? && DerivesLeaf(s, q, LexAt(s, q).next, LexAt(s, q).tok) && PairedToken(LexAt(s, q).tok)
  {
    hide StringEnd;
    hide NumberEnd;
    hide Numeral;
    hide WordAt;
    hide DerivesString;
    hide DerivesWord;
    hide IsPairedBody;
  }

  lemma WordWritten(s: bytes, q: nat)
    requires q < |s| && s[q] != QUOTE && !(s[q] == 45 || IsDigit(s[q]))
    requires LexAt(s, q).Good? && LiteralKind(LexAt(s, q).tok.kind)
    ensures DerivesLeaf(s, q, LexAt(s, q).next, LexAt(s, q).tok) && PairedToken(LexAt(s, q).tok)
  {
    hide StringEnd;
    hide NumberEnd;
    hide DerivesString;
    hide DerivesNumber;
    hide IsPairedBody;
  }

  // ---------------------------------------------------------------- token by token

  lemma {:induction false} WsSkipped(s: bytes, i: nat, q: nat)
    requires Ws(s, i, q)
    ensures i <= q <= |s| && SkipSpaces(s, i) == SkipSpaces(s, q) && Lex(s, i) == Lex(s, q) && Tokens(s, i) == Tokens(s, q)
    decreases q - i
  {
    hide LexAt;
    if i < q {
      assert Space(s[i]);
      WsSkipped(s, i + 1, q);
    }
  }

  /** The token that starts at `q`, with space before it. */
  lemma TokenAhead(s: bytes, i: nat, q: nat)
    requires Ws(s, i, q) && q < |s| && LexAt(s, q).Good?
    ensures i <= |s| && Tokens(s, i) == [LexAt(s, q).tok] + Tokens(s, LexAt(s, q).next)
  {
    hide LexAt;
    WsSkipped(s, i, q);
    GoodNoSpace(s, q);
  }

  lemma GoodNoSpace(s: bytes, q: nat)
    requires q < |s| && LexAt(s, q).Good?
    ensures !IsSpace(s[q])
  {
    hide StringEnd;
    hide NumberEnd;
    WordsStart(s, q);
  }

  /** Where the first token starts. */
  lemma FirstToken(s: bytes, i: nat) returns (q: nat)
    requires i <= |s| && Tokens(s, i) != [] && Tokens(s, i)[0].kind != TError
    ensures Ws(s, i, q) && q < |s| && LexAt(s, q).Good? && LexAt(s, q).tok == Tokens(s, i)[0]
    ensures Tokens(s, i)[1..] == Tokens(s, LexAt(s, q).next)
  {
    hide LexAt;
    q := SkipSpaces(s, i);
  }

  /** Bytes that are tokens by themselves. */
  predicate IsPunctuation(tok: Token) {
    tok == BraceToken || tok == BracketToken || tok == BRACE_CLOSE || tok == BRACKET_CLOSE || tok == COLON || tok == COMMA
  }

  lemma PunctuationLexed(s: bytes, q: nat, tok: Token)
    requires IsPunctuation(tok) && ByteAt(s, q, tok.raw[0])
    ensures q < |s| && LexAt(s, q) == Good(tok, q + 1)
  {
    hide StringEnd;
    hide NumberEnd;
    hide WordAt;
  }

  lemma PunctuationWritten(s: bytes, q: nat, tok: Token)
    requires IsPunctuation(tok) && q < |s| && LexAt(s, q).Good? && LexAt(s, q).tok == tok
    ensures ByteAt(s, q, tok.raw[0]) && LexAt(s, q).next == q + 1
  {
    hide StringEnd;
    hide NumberEnd;
    hide WordAt;
  }

  // ---------------------------------------------------------------- derived values are read

  /** Space, a comma, a closing bracket or the end goes on with no number. */
  lemma StopsWs(s: bytes, b: nat, c: nat)
    requires Ws(s, b, c) && (c == |s| || ByteAt(s, c, 0x2C) || ByteAt(s, c, 0x5D) || ByteAt(s, c, 0x7D))
    ensures Stops(s, b)
  {
    if b < c {
      assert IsSpace(s[b]);
    }
  }

  lemma Opened(s: bytes, i: nat, j: nat, open: Token, close: Token)
    requires i + 2 <= j && IsPunctuation(open) && IsPunctuation(close) && ByteAt(s, i, open.raw[0]) && ByteAt(s, j - 1, close.raw[0])
    ensures j <= |s| && Tokens(s, i) == [open] + Tokens(s, i + 1) && Tokens(s, j - 1) == [close] + Tokens(s, j)
  {
    hide LexAt;
    hide Tokens;
    hide IsPunctuation;
    PunctuationLexed(s, i, open);
    PunctuationLexed(s, j - 1, close);
    TokenAhead(s, i, i);
    TokenAhead(s, j - 1, j - 1);
  }

  /** A derived value is read token by token, if its surrogates are paired. */
  lemma {:induction false} ValueTokens(s: bytes, i: nat, j: nat, t: Tree)
    requires DerivesValue(s, i, j, t) && PairedValue(t) && Stops(s, j)
    ensures i < j <= |s| && Doc(t) && Tokens(s, i) == Spell(t) + Tokens(s, j)
    decreases t, 3
  {
    hide LexAt;
    hide Tokens;
    hide SpellItems;
    hide SpellMembers;
    hide DerivesLeaf;
    hide DerivesElements;
    hide DerivesMembers;
    hide PairedToken;
    hide PairedMember;
    hide DocMember;
    hide Stops;
    match t {
      case Leaf(_, tok) =>
        LeafLexed(s, i, j, tok);
        TokenAhead(s, i, i);
      case Arr(_, items) =>
        Opened(s, i, j, BracketToken, BRACKET_CLOSE);
        NoMembers();
        if items == [] {
          WsSkipped(s, i + 1, j - 1);
        } else {
          ElementsTokens(s, i + 1, j - 1, items);
        }
        Enclosed(BracketToken, SpellItems(items), BRACKET_CLOSE, Tokens(s, j));
      case Obj(_, ms) =>
        Opened(s, i, j, BraceToken, BRACE_CLOSE);
        NoMembers();
        if ms == [] {
          WsSkipped(s, i + 1, j - 1);
        } else {
          MembersTokens(s, i + 1, j - 1, ms);
        }
        Enclosed(BraceToken, SpellMembers(ms), BRACE_CLOSE, Tokens(s, j));
    }
  }

  lemma Enclosed(open: Token, body: seq<Token>, close: Token, rest: seq<Token>)
    ensures [open] + (body + ([close] + rest)) == [open] + body + [close] + rest
    ensures [open] + ([close] + rest) == [open] + [] + [close] + rest
  {
  }

  lemma ElementsSplit(s: bytes, i: nat, j: nat, items: seq<Tree>) returns (a: nat, b: nat, c: nat)
    requires items != [] && DerivesElements(s, i, j, items)
    ensures Ws(s, i, a) && DerivesValue(s, a, b, items[0]) && Ws(s, b, c)
    ensures |items| == 1 ==> c == j
    ensures |items| > 1 ==> ByteAt(s, c, 0x2C) && DerivesElements(s, c + 1, j, items[1..])
  {
    hide DerivesValue;
    hide Ws;
    hide ByteAt;
    a, b, c :| Ws(s, i, a) && DerivesValue(s, a, b, items[0]) && Ws(s, b, c) &&
               if |items| == 1 then c == j else ByteAt(s, c, 0x2C) && DerivesElements(s, c + 1, j, items[1..]);
  }

  lemma {:induction false} ElementsTokens(s: bytes, i: nat, j: nat, items: seq<Tree>)
    requires items != [] && DerivesElements(s, i, j, items) && ByteAt(s, j, 0x5D)
    requires forall k :: 0 <= k < |items| ==> PairedValue(items[k])
    ensures i <= j < |s| && Tokens(s, i) == SpellItems(items) + Tokens(s, j)
    ensures forall k :: 0 <= k < |items| ==> Doc(items[k])
    decreases items, 2
  {
    hide *;
    var a, b, c := ElementsSplit(s, i, j, items);
    BoundAt(s, j, 0x5D);
    StopsWs(s, b, c);
    WsSkipped(s, i, a);
    WsSkipped(s, b, c);
    ValueTokens(s, a, b, items[0]);
    if |items| == 1 {
      ItemsOne(items, Tokens(s, j));
    } else {
      CommaAhead(s, c);
      ElementsTokens(s, c + 1, j, items[1..]);
      ItemsMore(items, Tokens(s, j));
      forall k | 0 <= k < |items| ensures Doc(items[k]) {
        assert k > 0 ==> items[k] == items[1..][k - 1];
      }
    }
  }

  lemma BoundAt(s: bytes, i: nat, c: byte)
    requires ByteAt(s, i, c)
    ensures i < |s|
  {
  }

  lemma CommaAhead(s: bytes, c: nat)
    requires ByteAt(s, c, 0x2C)
    ensures c < |s| && Tokens(s, c) == [COMMA] + Tokens(s, c + 1)
  {
    hide LexAt;
    PunctuationLexed(s, c, COMMA);
    EmptyWs(s, c);
    TokenAhead(s, c, c);
  }

  lemma EmptyWs(s: bytes, c: nat)
    requires c <= |s|
    ensures Ws(s, c, c)
  {
  }

  lemma MembersSplit(s: bytes, i: nat, j: nat, ms: seq<Member>) returns (a: nat, b: nat, c: nat)
    requires ms != [] && DerivesMembers(s, i, j, ms)
    ensures Ws(s, i, a) && DerivesMember(s, a, b, ms[0]) && Ws(s, b, c)
    ensures |ms| == 1 ==> c == j
    ensures |ms| > 1 ==> ByteAt(s, c, 0x2C) && DerivesMembers(s, c + 1, j, ms[1..])
  {
    hide DerivesMember;
    hide Ws;
    hide ByteAt;
    a, b, c :| Ws(s, i, a) && DerivesMember(s, a, b, ms[0]) && Ws(s, b, c) &&
               if |ms| == 1 then c == j else ByteAt(s, c, 0x2C) && DerivesMembers(s, c + 1, j, ms[1..]);
  }

  lemma {:induction false} MembersTokens(s: bytes, i: nat, j: nat, ms: seq<Member>)
    requires ms != [] && DerivesMembers(s, i, j, ms) && ByteAt(s, j, 0x7D)
    requires forall k :: 0 <= k < |ms| ==> PairedMember(ms[k])
    ensures i <= j < |s| && Tokens(s, i) == SpellMembers(ms) + Tokens(s, j)
    ensures forall k :: 0 <= k < |ms| ==> DocMember(ms[k])
    decreases ms, 2
  {
    hide *;
    var a, b, c := MembersSplit(s, i, j, ms);
    BoundAt(s, j, 0x7D);
    StopsWs(s, b, c);
    WsSkipped(s, i, a);
    WsSkipped(s, b, c);
    PairTokens(s, a, b, ms[0]);
    if |ms| == 1 {
      MembersOne(ms, Tokens(s, j));
    } else {
      CommaAhead(s, c);
      MembersTokens(s, c + 1, j, ms[1..]);
      MembersMore(ms, Tokens(s, j));
      forall k | 0 <= k < |ms| ensures DocMember(ms[k]) {
        assert k > 0 ==> ms[k] == ms[1..][k - 1];
      }
    }
  }

  lemma MemberSplit(s: bytes, i: nat, j: nat, m: Member) returns (a: nat, b: nat, c: nat)
    requires DerivesMember(s, i, j, m)
    ensures !m.keySkip && DerivesString(s, i, a, m.key) && Ws(s, a, b) && ByteAt(s, b, 0x3A) && Ws(s, b + 1, c) && DerivesValue(s, c, j, m.val)
    ensures m.key.kind == TString
  {
    hide DerivesValue;
    hide Ws;
    hide ByteAt;
    hide IsBody;
    hide Here;
    a, b, c :| DerivesString(s, i, a, m.key) && Ws(s, a, b) && ByteAt(s, b, 0x3A) && Ws(s, b + 1, c) && DerivesValue(s, c, j, m.val);
  }

  lemma MemberParts(m: Member)
    requires PairedMember(m)
    ensures PairedToken(m.key) && PairedValue(m.val)
  {
    hide PairedToken;
    hide PairedValue;
  }

  lemma MakeDocMember(m: Member)
    requires !m.keySkip && m.key.kind == TString && Doc(m.val)
    ensures DocMember(m)
  {
    hide Doc;
  }

  lemma {:induction false} PairTokens(s: bytes, i: nat, j: nat, m: Member)
    requires DerivesMember(s, i, j, m) && PairedMember(m) && Stops(s, j)
    ensures i < j <= |s| && DocMember(m) && Tokens(s, i) == [m.key, COLON] + Spell(m.val) + Tokens(s, j)
    decreases m, 4
  {
    hide *;
    var a, b, c := MemberSplit(s, i, j, m);
    MemberParts(m);
    StringLexed(s, i, a, m.key);
    EmptyWs(s, i);
    TokenAhead(s, i, i);
    WsSkipped(s, a, b);
    ColonAhead(s, b);
    WsSkipped(s, b + 1, c);
    assert m.val < m;
    ValueTokens(s, c, j, m.val);
    MakeDocMember(m);
    PairJoined(m.key, Spell(m.val), Tokens(s, j));
  }

  lemma ColonAhead(s: bytes, c: nat)
    requires ByteAt(s, c, 0x3A)
    ensures c < |s| && Tokens(s, c) == [COLON] + Tokens(s, c + 1)
  {
    hide LexAt;
    PunctuationLexed(s, c, COLON);
    EmptyWs(s, c);
    TokenAhead(s, c, c);
  }

  lemma PairJoined(key: Token, val: seq<Token>, rest: seq<Token>)
    ensures [key] + ([COLON] + (val + rest)) == [key, COLON] + val + rest
  {
  }

  // ---------------------------------------------------------------- read values are derived

  /** The punctuation that comes next, and what is behind it. */
  lemma NextMark(s: bytes, i: nat, mark: Token, rest: seq<Token>) returns (q: nat)
    requires i <= |s| && IsPunctuation(mark) && Tokens(s, i) == [mark] + rest
    ensures Ws(s, i, q) && ByteAt(s, q, mark.raw[0]) && q < |s| && Tokens(s, q + 1) == rest
  {
    hide LexAt;
    hide Tokens;
    hide Ws;
    q := FirstToken(s, i);
    PunctuationWritten(s, q, mark);
    assert ([mark] + rest)[1..] == rest;
  }

  lemma NextLeaf(s: bytes, i: nat, tok: Token, rest: seq<Token>) returns (a: nat, j: nat)
    requires i <= |s| && LiteralKind(tok.kind) && Tokens(s, i) == [tok] + rest
    ensures Ws(s, i, a) && DerivesLeaf(s, a, j, tok) && PairedToken(tok) && j <= |s| && Tokens(s, j) == rest
  {
    hide LexAt;
    hide Tokens;
    hide Ws;
    hide DerivesLeaf;
    hide PairedToken;
    a := FirstToken(s, i);
    j := LexAt(s, a).next;
    LeafWritten(s, a);
    assert ([tok] + rest)[1..] == rest;
  }

  /** What is read token by token is derived, and its surrogates are paired. */
  lemma {:induction false} TokensValue(s: bytes, i: nat, t: Tree, rest: seq<Token>) returns (a: nat, j: nat)
    requires i <= |s| && Doc(t) && Tokens(s, i) == Spell(t) + rest
    ensures Ws(s, i, a) && DerivesValue(s, a, j, t) && PairedValue(t) && j <= |s| && Tokens(s, j) == rest
    decreases t, 3
  {
    hide Tokens;
    hide SpellItems;
    hide SpellMembers;
    hide DerivesLeaf;
    hide DerivesElements;
    hide DerivesMembers;
    hide PairedToken;
    hide PairedMember;
    hide DocMember;
    hide Ws;
    match t {
      case Leaf(_, tok) => a, j := NextLeaf(s, i, tok, rest);
      case Arr(_, items) =>
        Enclosing(BracketToken, SpellItems(items), BRACKET_CLOSE, rest);
        a := NextMark(s, i, BracketToken, SpellItems(items) + ([BRACKET_CLOSE] + rest));
        if items == [] {
          NoMembers();
          var q := NextMark(s, a + 1, BRACKET_CLOSE, rest);
          j := q + 1;
          WsOrdered(s, a + 1, q);
        } else {
          var q := TokensElements(s, a + 1, items, BRACKET_CLOSE, rest);
          j := q + 1;
        }
      case Obj(_, ms) =>
        Enclosing(BraceToken, SpellMembers(ms), BRACE_CLOSE, rest);
        a := NextMark(s, i, BraceToken, SpellMembers(ms) + ([BRACE_CLOSE] + rest));
        if ms == [] {
          NoMembers();
          var q := NextMark(s, a + 1, BRACE_CLOSE, rest);
          j := q + 1;
          WsOrdered(s, a + 1, q);
        } else {
          var q := TokensMembers(s, a + 1, ms, BRACE_CLOSE, rest);
          j := q + 1;
        }
    }
  }

  lemma WsOrdered(s: bytes, i: nat, q: nat)
    requires Ws(s, i, q)
    ensures i <= q <= |s|
  {
  }

  lemma Enclosing(open: Token, body: seq<Token>, close: Token, rest: seq<Token>)
    ensures [open] + body + [close] + rest == [open] + (body + ([close] + rest))
    ensures body == [] ==> body + ([close] + rest) == [close] + rest
  {
  }

  lemma {:induction false} TokensElements(s: bytes, i: nat, items: seq<Tree>, close: Token, rest: seq<Token>) returns (q: nat)
    requires i <= |s| && items != [] && (forall k :: 0 <= k < |items| ==> Doc(items[k])) && IsPunctuation(close)
    requires Tokens(s, i) == SpellItems(items) + ([close] + rest)
    ensures i <= q < |s| && DerivesElements(s, i, q, items) && ByteAt(s, q, close.raw[0]) && Tokens(s, q + 1) == rest
    ensures forall k :: 0 <= k < |items| ==> PairedValue(items[k])
    decreases items, 2
  {
    hide *;
    var x := items[0];
    if |items| == 1 {
      ItemsOne(items, [close] + rest);
      var a, b := TokensValue(s, i, x, [close] + rest);
      q := NextMark(s, b, close, rest);
      OneElement(s, i, a, b, q, items);
    } else {
      ItemsMore(items, [close] + rest);
      var more := SpellItems(items[1..]) + ([close] + rest);
      var a, b := TokensValue(s, i, x, [COMMA] + more);
      CommaMark();
      var c := NextMark(s, b, COMMA, more);
      q := TokensElements(s, c + 1, items[1..], close, rest);
      MoreElements(s, i, a, b, c, q, items);
      forall k | 0 <= k < |items| ensures PairedValue(items[k]) {
        assert k > 0 ==> items[k] == items[1..][k - 1];
      }
    }
  }

  lemma CommaMark()
    ensures IsPunctuation(COMMA) && COMMA.raw[0] == 0x2C && IsPunctuation(COLON) && COLON.raw[0] == 0x3A
  {
  }

  lemma OneElement(s: bytes, i: nat, a: nat, b: nat, q: nat, items: seq<Tree>)
    requires |items| == 1 && Ws(s, i, a) && DerivesValue(s, a, b, items[0]) && Ws(s, b, q)
    ensures DerivesElements(s, i, q, items) && i <= q
  {
    hide DerivesValue;
    DerivedForward(s, a, b, items[0]);
  }

  lemma MoreElements(s: bytes, i: nat, a: nat, b: nat, c: nat, q: nat, items: seq<Tree>)
    requires |items| > 1 && Ws(s, i, a) && DerivesValue(s, a, b, items[0]) && Ws(s, b, c)
    requires ByteAt(s, c, 0x2C) && DerivesElements(s, c + 1, q, items[1..]) && c + 1 <= q
    ensures DerivesElements(s, i, q, items) && i <= q
  {
    hide DerivesValue;
    DerivedForward(s, a, b, items[0]);
  }

  lemma DerivedForward(s: bytes, i: nat, j: nat, t: Tree)
    requires DerivesValue(s, i, j, t)
    ensures i < j
  {
    hide DerivesElements;
    hide DerivesMembers;
    if t.Leaf? {
      LeafForward(s, i, j, t.tok);
    }
  }

  lemma LeafForward(s: bytes, i: nat, j: nat, tok: Token)
    requires DerivesLeaf(s, i, j, tok)
    ensures i < j
  {
    hide Numeral;
    hide IsBody;
    hide Here;
    if DerivesNumber(s, i, j, tok) {
      NumeralStart(s, i, j);
    }
  }

  lemma {:induction false} TokensMembers(s: bytes, i: nat, ms: seq<Member>, close: Token, rest: seq<Token>) returns (q: nat)
    requires i <= |s| && ms != [] && (forall k :: 0 <= k < |ms| ==> DocMember(ms[k])) && IsPunctuation(close)
    requires Tokens(s, i) == SpellMembers(ms) + ([close] + rest)
    ensures i <= q < |s| && DerivesMembers(s, i, q, ms) && ByteAt(s, q, close.raw[0]) && Tokens(s, q + 1) == rest
    ensures forall k :: 0 <= k < |ms| ==> PairedMember(ms[k])
    decreases ms, 2
  {
    hide *;
    var m := ms[0];
    if |ms| == 1 {
      MembersOne(ms, [close] + rest);
      var a, b := TokensPair(s, i, m, [close] + rest);
      q := NextMark(s, b, close, rest);
      OneMember(s, i, a, b, q, ms);
    } else {
      MembersMore(ms, [close] + rest);
      var more := SpellMembers(ms[1..]) + ([close] + rest);
      var a, b := TokensPair(s, i, m, [COMMA] + more);
      CommaMark();
      var c := NextMark(s, b, COMMA, more);
      q := TokensMembers(s, c + 1, ms[1..], close, rest);
      MoreMembers(s, i, a, b, c, q, ms);
      forall k | 0 <= k < |ms| ensures PairedMember(ms[k]) {
        assert k > 0 ==> ms[k] == ms[1..][k - 1];
      }
    }
  }

  lemma OneMember(s: bytes, i: nat, a: nat, b: nat, q: nat, ms: seq<Member>)
    requires |ms| == 1 && Ws(s, i, a) && DerivesMember(s, a, b, ms[0]) && a <= b && Ws(s, b, q)
    ensures DerivesMembers(s, i, q, ms) && i <= q
  {
    hide DerivesMember;
  }

  lemma MoreMembers(s: bytes, i: nat, a: nat, b: nat, c: nat, q: nat, ms: seq<Member>)
    requires |ms| > 1 && Ws(s, i, a) && DerivesMember(s, a, b, ms[0]) && a <= b && Ws(s, b, c)
    requires ByteAt(s, c, 0x2C) && DerivesMembers(s, c + 1, q, ms[1..]) && c + 1 <= q
    ensures DerivesMembers(s, i, q, ms) && i <= q
  {
    hide DerivesMember;
  }

  lemma DocMemberParts(m: Member)
    requires DocMember(m)
    ensures !m.keySkip && m.key.kind == TString && Doc(m.val)
  {
    hide Doc;
  }

  lemma MakeMember(s: bytes, i: nat, a: nat, b: nat, c: nat, j: nat, m: Member)
    requires !m.keySkip && DerivesString(s, i, a, m.key) && Ws(s, a, b) && ByteAt(s, b, 0x3A) && Ws(s, b + 1, c)
    requires DerivesValue(s, c, j, m.val) && PairedToken(m.key) && PairedValue(m.val)
    ensures DerivesMember(s, i, j, m) && PairedMember(m) && i <= j
  {
    hide DerivesValue;
    hide PairedToken;
    hide PairedValue;
    hide IsBody;
    hide Here;
    DerivedForward(s, c, j, m.val);
  }

  lemma {:induction false} TokensPair(s: bytes, i: nat, m: Member, rest: seq<Token>) returns (a: nat, j: nat)
    requires i <= |s| && DocMember(m) && Tokens(s, i) == [m.key, COLON] + Spell(m.val) + rest
    ensures Ws(s, i, a) && DerivesMember(s, a, j, m) && PairedMember(m) && a <= j <= |s| && Tokens(s, j) == rest
    decreases m, 4
  {
    hide *;
    DocMemberParts(m);
    StringIsLiteral();
    PairJoined(m.key, Spell(m.val), rest);
    var e;
    a, e := NextLeaf(s, i, m.key, [COLON] + (Spell(m.val) + rest));
    LeafKinds(s, a, e, m.key);
    CommaMark();
    var b := NextMark(s, e, COLON, Spell(m.val) + rest);
    assert m.val < m;
    var c;
    c, j := TokensValue(s, b + 1, m.val, rest);
    MakeMember(s, a, e, b, c, j, m);
  }

  lemma StringIsLiteral()
    ensures LiteralKind(TString)
  {
  }

  // ---------------------------------------------------------------- whole texts

  /** The tokens from `i` on spell a value exactly when the bytes are a JSON text for it
      without unpaired surrogate escapes. */
  lemma TextExact(s: bytes, i: nat, t: Tree)
    requires i <= |s|
    ensures Doc(t) && Spell(t) == Tokens(s, i) <==> DerivesText(s, i, t) && PairedValue(t)
  {
    hide *;
    if Doc(t) && Spell(t) == Tokens(s, i) {
      assert Spell(t) + [] == Spell(t);
      var a, b := TokensValue(s, i, t, []);
      NoTokensWs(s, b);
      MakeText(s, i, a, b, t);
    }
    if DerivesText(s, i, t) && PairedValue(t) {
      var a, b := TextSplit(s, i, t);
      StopsWs(s, b, |s|);
      WsSkipped(s, i, a);
      ValueTokens(s, a, b, t);
      WsSkipped(s, b, |s|);
      EndTokens(s);
      assert Spell(t) + [] == Spell(t);
    }
  }

  lemma NoTokensWs(s: bytes, b: nat)
    requires b <= |s| && Tokens(s, b) == []
    ensures Ws(s, b, |s|)
  {
    hide LexAt;
  }

  lemma EndTokens(s: bytes)
    ensures Tokens(s, |s|) == []
  {
    hide LexAt;
  }

  lemma MakeText(s: bytes, i: nat, a: nat, b: nat, t: Tree)
    requires Ws(s, i, a) && DerivesValue(s, a, b, t) && Ws(s, b, |s|)
    ensures DerivesText(s, i, t)
  {
    hide DerivesValue;
    hide Ws;
  }

  lemma TextSplit(s: bytes, i: nat, t: Tree) returns (a: nat, b: nat)
    requires DerivesText(s, i, t)
    ensures Ws(s, i, a) && DerivesValue(s, a, b, t) && Ws(s, b, |s|)
  {
    hide DerivesValue;
    hide Ws;
    a, b :| Ws(s, i, a) && DerivesValue(s, a, b, t) && Ws(s, b, |s|);
  }
}
