/** The grammar of JSON texts over bytes: what sections 2 to 7 of RFC 8259 derive, with
    characters in UTF-8 (section 4 of RFC 3629). Nothing here says how a text is read. */
module TextGrammar {
  import opened Bytes
  import opened Ast
  import opened Unescape
  import opened Lexing
  import opened Strings
  import opened Numerals

  // ---------------------------------------------------------------- strings

  /** An unescaped code point, a two-character escape, or `\u` with four digits. */
  datatype Char = Raw(cp: int) | Short(c: byte) | Unicode(hex: bytes)

  /** HEXDIG, in either case. */
  predicate HexByte(c: byte) { 0x30 <= c <= 0x39 || 0x41 <= c <= 0x46 || 0x61 <= c <= 0x66 }

  predicate CharOk(c: Char) {
    match c
    case Raw(cp) => Scalar(cp) && cp >= 0x20 && cp != 0x22 && cp != 0x5C
    case Short(c) => c in {0x22, 0x5C, 0x2F, 0x62, 0x66, 0x6E, 0x72, 0x74}
    case Unicode(hex) => |hex| == 4 && HexByte(hex[0]) && HexByte(hex[1]) && HexByte(hex[2]) && HexByte(hex[3])
  }

  function Written(c: Char): (r: bytes)
    requires CharOk(c)
    ensures r != []
  {
    match c
    case Raw(cp) => Utf8(cp)
    case Short(c) => [0x5C, c]
    case Unicode(hex) => [0x5C, 0x75] + hex
  }

  ghost predicate CharsOk(cs: seq<Char>) {
    forall k :: 0 <= k < |cs| ==> CharOk(cs[k])
  }

  ghost function Body(cs: seq<Char>): bytes
    requires CharsOk(cs)
  {
    if cs == [] then [] else Written(cs[0]) + Body(cs[1..])
  }

  /** `\uD800` to `\uDBFF`. */
  predicate IsHigh(c: Char) {
    && c.Unicode? && CharOk(c) && c.hex[0] in {0x44, 0x64}
    && c.hex[1] in {0x38, 0x39, 0x41, 0x42, 0x61, 0x62}
  }

  /** `\uDC00` to `\uDFFF`. */
  predicate IsLow(c: Char) {
    && c.Unicode? && CharOk(c) && c.hex[0] in {0x44, 0x64}
    && c.hex[1] in {0x43, 0x44, 0x45, 0x46, 0x63, 0x64, 0x65, 0x66}
  }

  /** Every escaped high surrogate is directly followed by a low one, and every low one
      directly preceded by a high one. */
  ghost predicate Paired(cs: seq<Char>) {
    forall k :: 0 <= k < |cs| ==> PairedAt(cs, k)
  }

  ghost predicate PairedAt(cs: seq<Char>, k: nat)
    requires k < |cs|
  {
    && (IsHigh(cs[k]) ==> k + 1 < |cs| && IsLow(cs[k + 1]))
    && (IsLow(cs[k]) ==> k > 0 && IsHigh(cs[k - 1]))
  }

  ghost predicate IsWritten(raw: bytes, cs: seq<Char>) { CharsOk(cs) && Body(cs) == raw }

  /** What may stand between quotes. */
  ghost predicate IsBody(raw: bytes) {
    exists cs: seq<Char> :: IsWritten(raw, cs)
  }

  /** ... and has no unpaired surrogate escape. */
  ghost predicate IsPairedBody(raw: bytes) {
    exists cs: seq<Char> :: IsWritten(raw, cs) && Paired(cs)
  }

  // ---------------------------------------------------------------- derivations

  predicate Space(c: byte) { c in {0x20, 0x09, 0x0A, 0x0D} }

  predicate Ws(s: bytes, i: nat, j: nat) {
    i <= j <= |s| && forall k :: i <= k < j ==> Space(s[k])
  }

  ghost predicate DerivesString(s: bytes, i: nat, j: nat, tok: Token) {
    && tok.kind == TString && IsBody(tok.raw) && (tok.esc <==> 0x5C in tok.raw)
    && j == i + |tok.raw| + 2 && Here(s, i, [0x22] + tok.raw + [0x22])
  }

  ghost predicate DerivesWord(s: bytes, i: nat, j: nat, tok: Token, k: TokenType, w: bytes) {
    tok == Token(k, [], false) && j == i + |w| && Here(s, i, w)
  }

  ghost predicate DerivesNumber(s: bytes, i: nat, j: nat, tok: Token) {
    i <= j <= |s| && Numeral(s, i, j) && tok == Token(TNumber, s[i..j], false)
  }

  ghost predicate DerivesLeaf(s: bytes, i: nat, j: nat, tok: Token) {
    || DerivesString(s, i, j, tok)
    || DerivesNumber(s, i, j, tok)
    || DerivesWord(s, i, j, tok, TTrue, [0x74, 0x72, 0x75, 0x65])
    || DerivesWord(s, i, j, tok, TFalse, [0x66, 0x61, 0x6C, 0x73, 0x65])
    || DerivesWord(s, i, j, tok, TNull, [0x6E, 0x75, 0x6C, 0x6C])
  }

  /** The bytes from `i` to `j` derive the value. */
  ghost predicate DerivesValue(s: bytes, i: nat, j: nat, t: Tree)
    decreases t, 2
  {
    !t.skip &&
    match t
    case Leaf(_, tok) => DerivesLeaf(s, i, j, tok)
    case Arr(_, items) =>
      i + 2 <= j && ByteAt(s, i, 0x5B) && ByteAt(s, j - 1, 0x5D) &&
      if items == [] then Ws(s, i + 1, j - 1) else DerivesElements(s, i + 1, j - 1, items)
    case Obj(_, ms) =>
      i + 2 <= j && ByteAt(s, i, 0x7B) && ByteAt(s, j - 1, 0x7D) &&
      if ms == [] then Ws(s, i + 1, j - 1) else DerivesMembers(s, i + 1, j - 1, ms)
  }

  /** Values with space around them, and commas between them. */
  ghost predicate DerivesElements(s: bytes, i: nat, j: nat, items: seq<Tree>)
    requires items != []
    decreases items, 1
  {
    exists a: nat, b: nat, c: nat ::
      Ws(s, i, a) && DerivesValue(s, a, b, items[0]) && Ws(s, b, c) &&
      if |items| == 1 then c == j else ByteAt(s, c, 0x2C) && DerivesElements(s, c + 1, j, items[1..])
  }

  ghost predicate DerivesMembers(s: bytes, i: nat, j: nat, ms: seq<Member>)
    requires ms != []
    decreases ms, 1
  {
    exists a: nat, b: nat, c: nat ::
      Ws(s, i, a) && DerivesMember(s, a, b, ms[0]) && Ws(s, b, c) &&
      if |ms| == 1 then c == j else ByteAt(s, c, 0x2C) && DerivesMembers(s, c + 1, j, ms[1..])
  }

  ghost predicate DerivesMember(s: bytes, i: nat, j: nat, m: Member)
    decreases m, 0
  {
    !m.keySkip &&
    exists a: nat, b: nat, c: nat ::
      DerivesString(s, i, a, m.key) && Ws(s, a, b) && ByteAt(s, b, 0x3A) && Ws(s, b + 1, c)
      && (assert m.val < m; DerivesValue(s, c, j, m.val))
  }

  /** The bytes from `i` to the end are a JSON text for the value. */
  ghost predicate DerivesText(s: bytes, i: nat, t: Tree) {
    exists a: nat, b: nat :: Ws(s, i, a) && DerivesValue(s, a, b, t) && Ws(s, b, |s|)
  }

  // ---------------------------------------------------------------- surrogates in a value

  ghost predicate PairedToken(tok: Token) { tok.kind == TString ==> IsPairedBody(tok.raw) }

  /** No string or key of the value has an unpaired surrogate escape. */
  ghost predicate PairedValue(t: Tree)
    decreases t
  {
    match t
    case Leaf(_, tok) => PairedToken(tok)
    case Arr(_, items) => forall i :: 0 <= i < |items| ==> PairedValue(items[i])
    case Obj(_, ms) => forall i :: 0 <= i < |ms| ==> PairedMember(ms[i])
  }

  ghost predicate PairedMember(m: Member)
    decreases m
  {
    PairedToken(m.key) && (assert m.val < m; PairedValue(m.val))
  }
}
