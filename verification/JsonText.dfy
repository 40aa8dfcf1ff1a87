/** What the serializer writes is what the lexer and the grammar read back
    (src/shape/serialize.c, src/parser/lexer.c). */
module JsonText {
  import opened Bytes
  import opened Ast
  import opened Unescape
  import opened Keywords
  import opened Lexing
  import opened Grammar
  import opened KeyTree
  import opened ScopedKeys
  import opened Values
  import opened Strings
  import opened Numerals
  import opened Json

  // ---------------------------------------------------------------- escaped strings

  lemma EscCharForms(c: byte)
    ensures c == QUOTE || c == BACKSLASH || c == 8 || c == 9 || c == 10 || c == 12 || c == 13
            ==> exists e: byte :: EscChar(c) == [BACKSLASH, e] && IsShortEscape(e) && SimpleEscape(e) == c
    ensures c < 0x20 && |EscChar(c)| != 2
            ==> EscChar(c) == [BACKSLASH, 117, 48, 48, HexDigit(c as int / 16), HexDigit(c as int % 16)]
    ensures |EscChar(c)| == 1 ==> EscChar(c) == [c] && c >= 0x20 && c != QUOTE && c != BACKSLASH
    ensures |EscChar(c)| == 1 || |EscChar(c)| == 2 || |EscChar(c)| == 6
    ensures |EscChar(c)| == 2 <==> c == QUOTE || c == BACKSLASH || c == 8 || c == 9 || c == 10 || c == 12 || c == 13
    ensures |EscChar(c)| == 6 ==> c < 0x20
  {
    var e: byte := if c == 8 then 98 else if c == 9 then 116 else if c == 10 then 110 else if c == 12 then 102
                   else if c == 13 then 114 else c;
    assert SimpleEscape(e) == c || |EscChar(c)| != 2;
    assert |EscChar(c)| == 2 ==> EscChar(c) == [BACKSLASH, e];
  }

  lemma HexDigitValue(n: int)
    requires 0 <= n < 16
    ensures IsHex(HexDigit(n)) && HexValue(HexDigit(n)) == n
  {
  }

  /** `\u00XY` stands for the control character it was written for. */
  lemma ControlHex(s: bytes, c: byte)
    requires c < 0x20 && |s| >= 4 && s[0] == 48 && s[1] == 48 && s[2] == HexDigit(c as int / 16) && s[3] == HexDigit(c as int % 16)
    ensures IsHex4(s) && Hex4(s) == c as int && Utf8(c as int) == [c]
  {
    HexDigitValue(c as int / 16);
    HexDigitValue(c as int % 16);
  }

  /** One written byte is decoded to itself. */
  lemma EscCharDecodes(c: byte, rest: bytes)
    ensures DecodeUnit(EscChar(c) + rest) == Unit(|EscChar(c)|, [c])
  {
    hide EscChar;
    hide Utf8;
    hide HexDigit;
    hide IsHex4;
    hide Hex4;
    EscCharForms(c);
    var s := EscChar(c) + rest;
    assert s[0] == EscChar(c)[0];
    if |EscChar(c)| == 2 {
      assert s[1] == EscChar(c)[1];
    } else if |EscChar(c)| == 6 {
      assert s[1] == 117;
      var t := s[2..];
      assert t[0] == 48 && t[1] == 48 && t[2] == EscChar(c)[4] && t[3] == EscChar(c)[5];
      ControlHex(t, c);
    }
  }

  /** Unescaping the body the serializer writes gives the bytes back, whatever they are. */
  lemma {:induction false} EscBodyDecodes(s: bytes)
    ensures Unescaped(EscBody(s)) == s
  {
    hide *;
    if s == [] {
      NothingEscaped();
    } else {
      var e := EscBody(s);
      EscBodyCons(s);
      EscCharDecodes(s[0], EscBody(s[1..]));
      EscBodyDecodes(s[1..]);
      assert e[0..] == e;
      UnescapedStep(e, 0, |EscChar(s[0])|, [s[0]]);
      assert e[|EscChar(s[0])|..] == EscBody(s[1..]);
      assert [s[0]] + s[1..] == s;
    }
  }

  lemma NothingEscaped()
    ensures EscBody([]) == [] && Unescaped([]) == []
  {
  }

  lemma EscBodyCons(s: bytes)
    requires s != []
    ensures EscBody(s) == EscChar(s[0]) + EscBody(s[1..]) && EscBody(s) != []
  {
    hide EscChar;
  }

  lemma HereParts(s: bytes, i: nat, a: bytes, b: bytes)
    requires Here(s, i, a + b)
    ensures Here(s, i, a) && Here(s, i + |a|, b)
  {
    HereSplit(s, i, a, b);
  }

  lemma HereByte(s: bytes, i: nat, a: bytes, k: nat)
    requires Here(s, i, a) && k < |a|
    ensures i + k < |s| && s[i + k] == a[k]
  {
    assert s[i + k] == s[i..i + |a|][k];
  }

  /** A written escape is one character to the lexer. */
  lemma EscapeRead(s: bytes, i: nat, c: byte)
    requires Here(s, i, EscChar(c)) && |EscChar(c)| > 1
    ensures i < |s| && s[i] != QUOTE && CharLen(s, i) == |EscChar(c)|
  {
    hide EscChar;
    hide HexDigit;
    EscCharForms(c);
    HereByte(s, i, EscChar(c), 0);
    HereByte(s, i, EscChar(c), 1);
    if |EscChar(c)| == 6 {
      HereByte(s, i, EscChar(c), 2);
      HereByte(s, i, EscChar(c), 3);
      HereByte(s, i, EscChar(c), 4);
      HereByte(s, i, EscChar(c), 5);
      HexDigitValue(c as int / 16);
      HexDigitValue(c as int % 16);
    }
  }

  /** Bytes above the ASCII range are written as they are. */
  lemma {:induction false} HighCopied(t: bytes, n: nat)
    requires n <= |t| && forall k :: 0 <= k < n ==> t[k] >= 0x80
    ensures EscBody(t) == t[..n] + EscBody(t[n..])
    decreases n
  {
    hide *;
    if n == 0 {
      assert t[0..] == t && t[..0] == [];
      assert [] + EscBody(t) == EscBody(t);
    } else {
      EscBodyCons(t);
      HighPlain(t[0]);
      HighCopied(t[1..], n - 1);
      assert t[1..][n - 1..] == t[n..] && [t[0]] + t[1..][..n - 1] == t[..n];
      Regroup([t[0]], t[1..][..n - 1], EscBody(t[n..]));
    }
  }

  lemma HighPlain(c: byte)
    requires c >= 0x80
    ensures EscChar(c) == [c]
  {
  }

  lemma Utf8LenLocal(s: bytes, i: nat, t: bytes, n: nat)
    requires t != [] && Utf8Len(t, 0) == n && n > 0 && Here(s, i, t[..n])
    ensures i < |s| && Utf8Len(s, i) == n && s[i] == t[0]
    ensures t[0] >= 0x80 ==> forall k :: 0 <= k < n ==> t[k] >= 0x80
  {
    HereByte(s, i, t[..n], 0);
    if n > 1 {
      HereByte(s, i, t[..n], 1);
    }
    if n > 2 {
      HereByte(s, i, t[..n], 2);
    }
    if n > 3 {
      HereByte(s, i, t[..n], 3);
    }
    forall k | 0 <= k < n && t[0] >= 0x80 ensures t[k] >= 0x80 {
      assert k == 0 || k == 1 || k == 2 || k == 3;
    }
  }

  /** The first character of a text, as written, is one character to the lexer. */
  lemma FirstRead(s: bytes, i: nat, t: bytes) returns (n: nat, m: nat)
    requires t != [] && Utf8Len(t, 0) > 0 && Here(s, i, EscBody(t))
    ensures n == Utf8Len(t, 0) && m <= |EscBody(t)| && EscBody(t)[m..] == EscBody(t[n..])
    ensures i < |s| && s[i] != QUOTE && CharLen(s, i) == m && m > 0
  {
    hide EscBody;
    hide EscChar;
    hide EscapeLen;
    hide Utf8Len;
    n := Utf8Len(t, 0);
    var c := t[0];
    EscCharForms(c);
    if c >= 0x80 {
      m := n;
      Utf8Prefix(t);
      HighCopied(t, n);
      HereParts(s, i, t[..n], EscBody(t[n..]));
      Utf8LenLocal(s, i, t, n);
    } else {
      AsciiLen(t);
      EscBodyCons(t);
      m := |EscChar(c)|;
      HereParts(s, i, EscChar(c), EscBody(t[1..]));
      if m > 1 {
        EscapeRead(s, i, c);
      } else {
        HereByte(s, i, EscChar(c), 0);
        AsciiLen(s[i..]);
        AsciiHere(s, i);
      }
    }
  }

  lemma Utf8Prefix(t: bytes)
    requires t != [] && Utf8Len(t, 0) > 0
    ensures Utf8Len(t, 0) <= |t| && Here(t, 0, t[..Utf8Len(t, 0)])
    ensures t[0] >= 0x80 ==> forall k :: 0 <= k < Utf8Len(t, 0) ==> t[k] >= 0x80
  {
    hide Utf8Len;
    Utf8LenLocal(t, 0, t, Utf8Len(t, 0));
  }

  lemma AsciiLen(t: bytes)
    requires t != [] && t[0] < 0x80
    ensures Utf8Len(t, 0) == 1
  {
  }

  lemma AsciiHere(s: bytes, i: nat)
    requires i < |s| && s[i] < 0x80
    ensures Utf8Len(s, i) == 1
  {
  }

  lemma Utf8Forms(t: bytes)
    requires IsUtf8(t) && t != []
    ensures 0 < Utf8Len(t, 0) <= |t| && IsUtf8(t[Utf8Len(t, 0)..])
  {
    hide Utf8Len;
  }

  /** A well-formed text, as written, ends for the lexer where its quote stands. */
  lemma {:induction false} BodyRead(s: bytes, i: nat, t: bytes)
    requires IsUtf8(t) && Here(s, i, EscBody(t) + [QUOTE])
    ensures i <= |s| && StringEnd(s, i) == Some(i + |EscBody(t)|)
    decreases |t|
  {
    hide EscBody;
    hide CharLen;
    hide Utf8Len;
    hide StringEnd;
    hide IsUtf8;
    hide Here;
    HereParts(s, i, EscBody(t), [QUOTE]);
    HereByte(s, i + |EscBody(t)|, [QUOTE], 0);
    if t == [] {
      NothingEscaped();
      QuoteEnds(s, i);
    } else {
      Utf8Forms(t);
      var n, m := FirstRead(s, i, t);
      assert EscBody(t) == EscBody(t)[..m] + EscBody(t[n..]);
      Regroup(EscBody(t)[..m], EscBody(t[n..]), [QUOTE]);
      HereParts(s, i, EscBody(t)[..m], EscBody(t[n..]) + [QUOTE]);
      BodyRead(s, i + m, t[n..]);
      StringEndStep(s, i);
    }
  }

  // ---------------------------------------------------------------- numerals

  lemma {:induction false} DigitsRead(s: bytes, i: nat, e: nat)
    requires i <= e <= |s| && (forall k :: i <= k < e ==> IsDigit(s[k])) && (e == |s| || !IsDigit(s[e]))
    ensures DigitsEnd(s, i) == e
    decreases e - i
  {
    if i < e {
      DigitsRead(s, i + 1, e);
    }
  }

  lemma {:induction false} DecimalFirst(n: nat)
    ensures n > 0 ==> Decimal(n)[0] != 48
    ensures n == 0 ==> Decimal(n) == [48]
    decreases n
  {
    if n >= 10 {
      DecimalFirst(n / 10);
      assert Decimal(n)[0] == Decimal(n / 10)[0];
    }
  }

  /** What may follow a value: the end, a comma or a closing bracket. */
  predicate Ended(s: bytes, q: nat) {
    q == |s| || (q < |s| && (s[q] == 44 || s[q] == 93 || s[q] == 125))
  }

  lemma DecimalRead(s: bytes, i: nat, n: nat)
    requires Here(s, i, Decimal(n)) && Ended(s, i + |Decimal(n)|)
    ensures IntEnd(s, i) == Some(i + |Decimal(n)|)
  {
    hide Decimal;
    DecimalFirst(n);
    var d := Decimal(n);
    var e := i + |d|;
    HereByte(s, i, d, 0);
    forall k | i <= k < e ensures IsDigit(s[k]) {
      HereByte(s, i, d, k - i);
    }
    DigitsRead(s, i + 1, e);
  }

  lemma IntRead(s: bytes, p: nat, i: int64)
    requires Here(s, p, PrintInt(i)) && Ended(s, p + |PrintInt(i)|)
    ensures p < |s| && (s[p] == 45 || IsDigit(s[p])) && NumberEnd(s, p) == Some(p + |PrintInt(i)|)
  {
    hide Decimal;
    hide IntEnd;
    var x: int := i;
    HereByte(s, p, PrintInt(i), 0);
    if x < 0 {
      HereParts(s, p, [45], Decimal(0 - x));
      DecimalRead(s, p + 1, 0 - x);
    } else {
      DecimalRead(s, p, x);
    }
  }

  // ---------------------------------------------------------------- the value as written

  /** The bytes are a numeral of section 6 of RFC 8259. */
  ghost predicate IsNumeral(raw: bytes) { Numeral(raw, 0, |raw|) }

  /** Values whose text is JSON: doubles are written as numerals, what is kept as text is a
      numeral, and strings and keys are in well-formed UTF-8. */
  ghost predicate Writable(fl: Floats, j: J)
    decreases j
  {
    match j
    case JNum(d) => IsNumeral(fl.text(d))
    case JBig(x) => IsNumeral(x)
    case JStr(s) => IsUtf8(s)
    case JArr(items) => forall i :: 0 <= i < |items| ==> Writable(fl, items[i])
    case JObj(fields) => forall i :: 0 <= i < |fields| ==> WritableField(fl, fields[i])
    case _ => true
  }

  ghost predicate WritableField(fl: Floats, f: Field)
    decreases f
  {
    IsUtf8(f.key) && (assert f.val < f; Writable(fl, f.val))
  }

  function StringToken(s: bytes): Token {
    Token(TString, EscBody(s), BACKSLASH in EscBody(s))
  }

  /** The tree the parser is to find. */
  function TreeOf(fl: Floats, j: J): Tree
    decreases j
  {
    match j
    case JBool(b) => Leaf(false, Token(if b then TTrue else TFalse, [], false))
    case JInt(i) => Leaf(false, Token(TNumber, PrintInt(i), false))
    case JNum(d) => Leaf(false, Token(TNumber, fl.text(d), false))
    case JBig(x) => Leaf(false, Token(TNumber, x, false))
    case JStr(s) => Leaf(false, StringToken(s))
    case JArr(items) => Arr(false, TreesOf(fl, items))
    case JObj(fields) => Obj(false, MembersOf(fl, fields))
    case _ => Leaf(false, Token(TNull, [], false))
  }

  function TreesOf(fl: Floats, items: seq<J>): (r: seq<Tree>)
    ensures |r| == |items|
    decreases items
  {
    if items == [] then [] else TreesOf(fl, items[..|items| - 1]) + [TreeOf(fl, items[|items| - 1])]
  }

  function MemberOf(fl: Floats, f: Field): Member
    decreases f
  {
    assert f.val < f;
    Member(StringToken(f.key), false, TreeOf(fl, f.val))
  }

  function MembersOf(fl: Floats, fields: seq<Field>): (r: seq<Member>)
    ensures |r| == |fields|
    decreases fields
  {
    if fields == [] then [] else MembersOf(fl, fields[..|fields| - 1]) + [MemberOf(fl, fields[|fields| - 1])]
  }

  /** The text of a string token is the string. */
  lemma StringTokenText(s: bytes)
    ensures KeyText(StringToken(s)) == s
  {
    hide Unescaped;
    hide EscBody;
    EscBodyDecodes(s);
    UnescapedShrinks(EscBody(s));
  }

  lemma {:induction false} TreeOfDoc(fl: Floats, j: J)
    ensures Doc(TreeOf(fl, j))
    decreases j, 1
  {
    match j {
      case JArr(items) => forall i | 0 <= i < |items| ensures Doc(TreesOf(fl, items)[i]) { TreesOfDoc(fl, items, i); }
      case JObj(fields) => forall i | 0 <= i < |fields| ensures DocMember(MembersOf(fl, fields)[i]) { MembersOfDoc(fl, fields, i); }
      case _ =>
    }
  }

  lemma {:induction false} TreesOfDoc(fl: Floats, items: seq<J>, i: nat)
    requires i < |items|
    ensures Doc(TreesOf(fl, items)[i]) && TreesOf(fl, items)[i] == TreeOf(fl, items[i])
    decreases items, 0
  {
    hide TreeOf;
    hide Doc;
    var n := |items| - 1;
    if i == n {
      TreeOfDoc(fl, items[n]);
    } else {
      TreesOfDoc(fl, items[..n], i);
    }
  }

  lemma {:induction false} MembersOfDoc(fl: Floats, fields: seq<Field>, i: nat)
    requires i < |fields|
    ensures DocMember(MembersOf(fl, fields)[i]) && MembersOf(fl, fields)[i] == MemberOf(fl, fields[i])
    decreases fields, 0
  {
    hide TreeOf;
    hide Doc;
    var n := |fields| - 1;
    if i == n {
      assert fields[n].val < fields[n];
      TreeOfDoc(fl, fields[n].val);
    } else {
      MembersOfDoc(fl, fields[..n], i);
    }
  }

  // ---------------------------------------------------------------- one token

  lemma TokenHere(s: bytes, p: nat, tok: Token, next: nat)
    requires p < |s| && !IsSpace(s[p]) && LexAt(s, p) == Good(tok, next)
    ensures Tokens(s, p) == [tok] + Tokens(s, next)
  {
    hide LexAt;
  }

  lemma PunctuationHere(s: bytes, p: nat, c: byte)
    requires p < |s| && s[p] == c && Punctuation(c).Some?
    ensures Tokens(s, p) == [Token(Punctuation(c).value, [c], false)] + Tokens(s, p + 1)
  {
    hide Tokens;
    TokenHere(s, p, Token(Punctuation(c).value, [c], false), p + 1);
  }

  lemma StringHere(s: bytes, p: nat, t: bytes)
    requires IsUtf8(t) && Here(s, p, PrintString(t))
    ensures Tokens(s, p) == [StringToken(t)] + Tokens(s, p + |PrintString(t)|)
  {
    hide EscBody;
    hide StringEnd;
    hide IsUtf8;
    hide Tokens;
    var body := EscBody(t);
    Regroup([QUOTE], body, [QUOTE]);
    HereParts(s, p, [QUOTE], body + [QUOTE]);
    HereByte(s, p, [QUOTE], 0);
    BodyRead(s, p + 1, t);
    HereParts(s, p + 1, body, [QUOTE]);
    assert s[p + 1..p + 1 + |body|] == body;
    TokenHere(s, p, StringToken(t), p + |PrintString(t)|);
  }

  lemma IntHere(s: bytes, p: nat, i: int64)
    requires Here(s, p, PrintInt(i)) && Ended(s, p + |PrintInt(i)|)
    ensures Tokens(s, p) == [Token(TNumber, PrintInt(i), false)] + Tokens(s, p + |PrintInt(i)|)
  {
    hide PrintInt;
    hide NumberEnd;
    hide Tokens;
    IntRead(s, p, i);
    TokenHere(s, p, Token(TNumber, PrintInt(i), false), p + |PrintInt(i)|);
  }

  /** A numeral that is followed by the end, a comma or a bracket is one token, spelled as it
      is written. */
  lemma NumeralHere(s: bytes, p: nat, raw: bytes)
    requires IsNumeral(raw) && Here(s, p, raw) && Ended(s, p + |raw|)
    ensures Tokens(s, p) == [Token(TNumber, raw, false)] + Tokens(s, p + |raw|)
  {
    hide Numeral;
    hide NumberEnd;
    hide Tokens;
    assert raw[0..|raw|] == raw && s[p..p + |raw|] == raw;
    NumeralMoved(raw, 0, |raw|, s, p);
    NumberComplete(s, p, p + |raw|);
    NumeralStarts(s, p, p + |raw|);
    NumbersApart(s, p);
    TokenHere(s, p, Token(TNumber, raw, false), p + |raw|);
  }

  lemma NumeralStarts(s: bytes, i: nat, j: nat)
    requires Numeral(s, i, j)
    ensures i < |s| && (s[i] == 45 || IsDigit(s[i])) && i < j
  {
    var a: nat, b: nat, c: nat :| SplitAt(s, i, a, b, c, j);
  }

  lemma NumbersApart(s: bytes, p: nat)
    requires p < |s| && (s[p] == 45 || IsDigit(s[p])) && NumberEnd(s, p).Some?
    ensures LexAt(s, p) == Good(Token(TNumber, s[p..NumberEnd(s, p).value], false), NumberEnd(s, p).value)
    ensures !IsSpace(s[p])
  {
    hide NumberEnd;
    hide StringEnd;
  }

  lemma WordHere(s: bytes, p: nat, w: bytes, k: TokenType)
    requires (w == NULL_WORD && k == TNull) || (w == TRUE_WORD && k == TTrue) || (w == FALSE_WORD && k == TFalse)
    requires Here(s, p, w)
    ensures Tokens(s, p) == [Token(k, [], false)] + Tokens(s, p + |w|)
  {
    hide Tokens;
    hide StringEnd;
    hide NumberEnd;
    HereByte(s, p, w, 0);
    WordsStart(s, p);
    assert WordAt(s, p, w);
    TokenHere(s, p, Token(k, [], false), p + |w|);
  }

  // ---------------------------------------------------------------- whole values

  lemma SpellItemsSnoc(xs: seq<Tree>, x: Tree)
    ensures SpellItems(xs + [x]) == (if xs == [] then [] else SpellItems(xs) + [COMMA]) + Spell(x)
    decreases xs
  {
    hide Spell;
    var all := xs + [x];
    if xs == [] {
      assert all == [x];
    } else {
      SpellItemsSnoc(xs[1..], x);
      assert all[1..] == xs[1..] + [x] && all[0] == xs[0];
      if |xs| == 1 {
        assert [] + Spell(x) == Spell(x);
      } else {
        Regroup(Spell(xs[0]) + [COMMA], SpellItems(xs[1..]) + [COMMA], Spell(x));
        Regroup(Spell(xs[0]) + [COMMA], SpellItems(xs[1..]), [COMMA]);
      }
    }
  }

  function SpellPair(m: Member): seq<Token> { [m.key, COLON] + Spell(m.val) }

  lemma SpellMembersSnoc(xs: seq<Member>, x: Member)
    ensures SpellMembers(xs + [x]) == (if xs == [] then [] else SpellMembers(xs) + [COMMA]) + SpellPair(x)
    decreases xs
  {
    hide Spell;
    var all := xs + [x];
    if xs == [] {
      assert all == [x];
    } else {
      SpellMembersSnoc(xs[1..], x);
      assert all[1..] == xs[1..] + [x] && all[0] == xs[0];
      var pair := [xs[0].key, COLON] + Spell(xs[0].val);
      if |xs| == 1 {
        assert [] + SpellPair(x) == SpellPair(x);
      } else {
        Regroup(pair + [COMMA], SpellMembers(xs[1..]) + [COMMA], SpellPair(x));
        Regroup(pair + [COMMA], SpellMembers(xs[1..]), [COMMA]);
      }
    }
  }

  lemma PrintForms(fl: Floats, j: J)
    ensures j.JArr? ==> Print(fl, j) == [91] + PrintItems(fl, j.items) + [93] && Spell(TreeOf(fl, j)) == [BracketToken] + SpellItems(TreesOf(fl, j.items)) + [BRACKET_CLOSE]
    ensures j.JObj? ==> Print(fl, j) == [123] + PrintFields(fl, j.fields) + [125] && Spell(TreeOf(fl, j)) == [BraceToken] + SpellMembers(MembersOf(fl, j.fields)) + [BRACE_CLOSE]
    ensures j.JArr? && Writable(fl, j) ==> forall i :: 0 <= i < |j.items| ==> Writable(fl, j.items[i])
    ensures j.JObj? && Writable(fl, j) ==> forall i :: 0 <= i < |j.fields| ==> WritableField(fl, j.fields[i])
  {
    hide PrintItems;
    hide PrintFields;
    hide SpellItems;
    hide SpellMembers;
    hide TreesOf;
    hide MembersOf;
  }

  lemma BracketsHere(s: bytes, p: nat)
    requires p < |s|
    ensures s[p] == 91 ==> Tokens(s, p) == [BracketToken] + Tokens(s, p + 1)
    ensures s[p] == 93 ==> Tokens(s, p) == [BRACKET_CLOSE] + Tokens(s, p + 1)
    ensures s[p] == 123 ==> Tokens(s, p) == [BraceToken] + Tokens(s, p + 1)
    ensures s[p] == 125 ==> Tokens(s, p) == [BRACE_CLOSE] + Tokens(s, p + 1)
    ensures s[p] == 44 ==> Tokens(s, p) == [COMMA] + Tokens(s, p + 1)
    ensures s[p] == 58 ==> Tokens(s, p) == [COLON] + Tokens(s, p + 1)
  {
    hide Tokens;
    if Punctuation(s[p]).Some? {
      PunctuationHere(s, p, s[p]);
    }
  }

  /** The tokens of a written value spell its tree, wherever it stands. */
  lemma {:induction false} PrintRead(fl: Floats, s: bytes, p: nat, j: J)
    requires Writable(fl, j) && Here(s, p, Print(fl, j)) && Ended(s, p + |Print(fl, j)|)
    ensures Tokens(s, p) == Spell(TreeOf(fl, j)) + Tokens(s, p + |Print(fl, j)|)
    decreases j, 2
  {
    hide Tokens;
    hide Ended;
    hide PrintItems;
    hide PrintFields;
    hide PrintInt;
    hide EscBody;
    hide SpellItems;
    hide SpellMembers;
    hide TreesOf;
    hide MembersOf;
    hide IsUtf8;
    match j {
      case JNull => WordHere(s, p, NULL_WORD, TNull);
      case JBool(b) => WordHere(s, p, if b then TRUE_WORD else FALSE_WORD, if b then TTrue else TFalse);
      case JInt(i) => IntHere(s, p, i);
      case JStr(t) => StringHere(s, p, t);
      case JArr(items) => ArrayRead(fl, s, p, j);
      case JObj(fields) => ObjectRead(fl, s, p, j);
      case JNum(d) => NumeralHere(s, p, fl.text(d));
      case JBig(x) => NumeralHere(s, p, x);
    }
  }

  lemma ArrayRead(fl: Floats, s: bytes, p: nat, j: J)
    requires j.JArr? && Writable(fl, j) && Here(s, p, Print(fl, j))
    ensures Tokens(s, p) == Spell(TreeOf(fl, j)) + Tokens(s, p + |Print(fl, j)|)
    decreases j, 1
  {
    hide *;
    PrintForms(fl, j);
    var body := PrintItems(fl, j.items);
    var q := p + 1 + |body|;
    HereParts(s, p, [91] + body, [93]);
    HereParts(s, p, [91], body);
    HereByte(s, p, [91], 0);
    HereByte(s, q, [93], 0);
    BracketsHere(s, p);
    BracketsHere(s, q);
    EndedHere(s, q);
    ItemsRead(fl, s, p + 1, j.items);
    var inner := SpellItems(TreesOf(fl, j.items));
    Regroup(inner, [BRACKET_CLOSE], Tokens(s, q + 1));
    Regroup([BracketToken], inner + [BRACKET_CLOSE], Tokens(s, q + 1));
    Regroup([BracketToken], inner, [BRACKET_CLOSE]);
  }

  lemma EndedHere(s: bytes, q: nat)
    requires q < |s| && (s[q] == 44 || s[q] == 93 || s[q] == 125)
    ensures Ended(s, q)
  {
  }

  lemma ItemsForms2(fl: Floats, items: seq<J>)
    requires items != []
    ensures var n := |items| - 1;
            && PrintItems(fl, items) == (if n > 0 then PrintItems(fl, items[..n]) + [44] else []) + Print(fl, items[n])
            && TreesOf(fl, items) == TreesOf(fl, items[..n]) + [TreeOf(fl, items[n])]
            && (TreesOf(fl, items[..n]) == [] <==> n == 0)
  {
    hide Print;
    hide TreeOf;
  }

  lemma {:induction false} ItemsRead(fl: Floats, s: bytes, p: nat, items: seq<J>)
    requires (forall i :: 0 <= i < |items| ==> Writable(fl, items[i])) && Here(s, p, PrintItems(fl, items))
    requires Ended(s, p + |PrintItems(fl, items)|)
    ensures p + |PrintItems(fl, items)| <= |s|
    ensures Tokens(s, p) == SpellItems(TreesOf(fl, items)) + Tokens(s, p + |PrintItems(fl, items)|)
    decreases items, 0
  {
    hide *;
    HereFits(s, p, PrintItems(fl, items));
    if items == [] {
      NothingPrinted(fl);
      assert [] + Tokens(s, p) == Tokens(s, p);
    } else {
      var n := |items| - 1;
      var xs, x := items[..n], items[n];
      ItemsForms2(fl, items);
      SpellItemsSnoc(TreesOf(fl, xs), TreeOf(fl, x));
      var text := Print(fl, x);
      if n == 0 {
        assert [] + text == text && [] + Spell(TreeOf(fl, x)) == Spell(TreeOf(fl, x));
        PrintRead(fl, s, p, x);
      } else {
        var before := PrintItems(fl, xs);
        var q := p + |before|;
        HereParts(s, p, before + [44], text);
        HereParts(s, p, before, [44]);
        HereByte(s, q, [44], 0);
        EndedHere(s, q);
        ItemsRead(fl, s, p, xs);
        BracketsHere(s, q);
        PrintRead(fl, s, q + 1, x);
        var end := Tokens(s, q + 1 + |text|);
        Regroup(SpellItems(TreesOf(fl, xs)), [COMMA], Spell(TreeOf(fl, x)) + end);
        Regroup(SpellItems(TreesOf(fl, xs)) + [COMMA], Spell(TreeOf(fl, x)), end);
      }
    }
  }

  lemma HereFits(s: bytes, p: nat, a: bytes)
    requires Here(s, p, a)
    ensures p + |a| <= |s|
  {
  }

  lemma NothingPrinted(fl: Floats)
    ensures PrintItems(fl, []) == [] && PrintFields(fl, []) == [] && TreesOf(fl, []) == [] && MembersOf(fl, []) == []
    ensures SpellItems([]) == [] && SpellMembers([]) == []
  {
  }

  lemma ObjectRead(fl: Floats, s: bytes, p: nat, j: J)
    requires j.JObj? && Writable(fl, j) && Here(s, p, Print(fl, j))
    ensures Tokens(s, p) == Spell(TreeOf(fl, j)) + Tokens(s, p + |Print(fl, j)|)
    decreases j, 1
  {
    hide *;
    PrintForms(fl, j);
    var body := PrintFields(fl, j.fields);
    var q := p + 1 + |body|;
    HereParts(s, p, [123] + body, [125]);
    HereParts(s, p, [123], body);
    HereByte(s, p, [123], 0);
    HereByte(s, q, [125], 0);
    BracketsHere(s, p);
    BracketsHere(s, q);
    EndedHere(s, q);
    FieldsRead(fl, s, p + 1, j.fields);
    var inner := SpellMembers(MembersOf(fl, j.fields));
    Regroup(inner, [BRACE_CLOSE], Tokens(s, q + 1));
    Regroup([BraceToken], inner + [BRACE_CLOSE], Tokens(s, q + 1));
    Regroup([BraceToken], inner, [BRACE_CLOSE]);
  }

  lemma FieldsForms2(fl: Floats, fields: seq<Field>)
    requires fields != []
    ensures var n := |fields| - 1;
            && PrintFields(fl, fields) == (if n > 0 then PrintFields(fl, fields[..n]) + [44] else []) + PrintField(fl, fields[n])
            && MembersOf(fl, fields) == MembersOf(fl, fields[..n]) + [MemberOf(fl, fields[n])]
            && (MembersOf(fl, fields[..n]) == [] <==> n == 0)
  {
    hide PrintField;
    hide MemberOf;
  }

  lemma FieldForms(fl: Floats, f: Field)
    ensures PrintField(fl, f) == PrintString(f.key) + [58] + Print(fl, f.val)
    ensures SpellPair(MemberOf(fl, f)) == [StringToken(f.key), COLON] + Spell(TreeOf(fl, f.val))
    ensures WritableField(fl, f) ==> IsUtf8(f.key) && Writable(fl, f.val)
  {
    hide Print;
    hide PrintString;
    hide TreeOf;
    hide Spell;
    hide StringToken;
    hide IsUtf8;
    assert f.val < f;
  }

  lemma {:induction false} FieldRead(fl: Floats, s: bytes, p: nat, f: Field)
    requires WritableField(fl, f) && Here(s, p, PrintField(fl, f)) && Ended(s, p + |PrintField(fl, f)|)
    ensures p + |PrintField(fl, f)| <= |s|
    ensures Tokens(s, p) == SpellPair(MemberOf(fl, f)) + Tokens(s, p + |PrintField(fl, f)|)
    decreases f, 0
  {
    hide *;
    FieldForms(fl, f);
    assert f.val < f;
    HereFits(s, p, PrintField(fl, f));
    var key, text := PrintString(f.key), Print(fl, f.val);
    var q := p + |key|;
    HereParts(s, p, key + [58], text);
    HereParts(s, p, key, [58]);
    HereByte(s, q, [58], 0);
    StringHere(s, p, f.key);
    BracketsHere(s, q);
    PrintRead(fl, s, q + 1, f.val);
    var end := Tokens(s, q + 1 + |text|);
    Regroup([StringToken(f.key)], [COLON], Spell(TreeOf(fl, f.val)) + end);
    Regroup([StringToken(f.key), COLON], Spell(TreeOf(fl, f.val)), end);
    assert [StringToken(f.key)] + [COLON] == [StringToken(f.key), COLON];
  }

  lemma {:induction false} FieldsRead(fl: Floats, s: bytes, p: nat, fields: seq<Field>)
    requires (forall i :: 0 <= i < |fields| ==> WritableField(fl, fields[i])) && Here(s, p, PrintFields(fl, fields))
    requires Ended(s, p + |PrintFields(fl, fields)|)
    ensures p + |PrintFields(fl, fields)| <= |s|
    ensures Tokens(s, p) == SpellMembers(MembersOf(fl, fields)) + Tokens(s, p + |PrintFields(fl, fields)|)
    decreases fields, 0
  {
    hide *;
    HereFits(s, p, PrintFields(fl, fields));
    if fields == [] {
      NothingPrinted(fl);
      assert [] + Tokens(s, p) == Tokens(s, p);
    } else {
      var n := |fields| - 1;
      var xs, x := fields[..n], fields[n];
      FieldsForms2(fl, fields);
      SpellMembersSnoc(MembersOf(fl, xs), MemberOf(fl, x));
      var text := PrintField(fl, x);
      if n == 0 {
        assert [] + text == text && [] + SpellPair(MemberOf(fl, x)) == SpellPair(MemberOf(fl, x));
        FieldRead(fl, s, p, x);
      } else {
        var before := PrintFields(fl, xs);
        var q := p + |before|;
        HereParts(s, p, before + [44], text);
        HereParts(s, p, before, [44]);
        HereByte(s, q, [44], 0);
        EndedHere(s, q);
        FieldsRead(fl, s, p, xs);
        BracketsHere(s, q);
        FieldRead(fl, s, q + 1, x);
        var end := Tokens(s, q + 1 + |text|);
        Regroup(SpellMembers(MembersOf(fl, xs)), [COMMA], SpellPair(MemberOf(fl, x)) + end);
        Regroup(SpellMembers(MembersOf(fl, xs)) + [COMMA], SpellPair(MemberOf(fl, x)), end);
      }
    }
  }
}
