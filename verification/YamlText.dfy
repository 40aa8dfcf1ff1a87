/** What a token stream of the indentation lexer (src/parser/yaml_lexer.c) says about the
    bytes: which bytes are which token, in what column lines stand, and that nothing but
    blanks, line ends and comments is passed over. Nothing here says how the lexer reads. */
module YamlText {
  import opened Bytes
  import opened YamlTokens

  // ---------------------------------------------------------------- blanks, lines and comments

  predicate Blank(c: byte) { c == 32 || c == 9 }

  predicate LineEnd(c: byte) { c == 10 || c == 13 }

  predicate BreakAt(s: bytes, i: nat) {
    i >= |s| || Blank(s[i]) || LineEnd(s[i])
  }

  predicate NoLineEnd(s: bytes, i: nat, j: nat) {
    j <= |s| && forall k :: i <= k < j ==> !LineEnd(s[k])
  }

  predicate AllSpaces(s: bytes, i: nat, j: nat) {
    i <= j <= |s| && forall k :: i <= k < j ==> s[k] == 32
  }

  predicate AllBlank(s: bytes, i: nat, j: nat) {
    forall k: nat :: i <= k < j ==> k < |s| && Blank(s[k])
  }

  /** The sign at `h` begins a comment that reaches `k`. */
  predicate CommentFrom(s: bytes, p: nat, h: nat, k: nat) {
    p <= h <= k < |s| && s[h] == 35 && NoLineEnd(s, h, k + 1)
  }

  ghost predicate Commented(s: bytes, p: nat, k: nat) {
    exists h: nat :: CommentFrom(s, p, h, k)
  }

  /** Blanks, line ends and comments stand between. */
  ghost predicate Gap(s: bytes, p: nat, i: nat) {
    p <= i && forall k: nat :: p <= k < i ==> Skipped(s, p, k)
  }

  ghost predicate Skipped(s: bytes, p: nat, k: nat) {
    k < |s| && (Blank(s[k]) || LineEnd(s[k]) || Commented(s, p, k))
  }

  /** The first byte from `p` on that is not passed over. */
  ghost predicate ContentAt(s: bytes, p: nat, i: nat) {
    Gap(s, p, i) && i < |s| && !Blank(s[i]) && !LineEnd(s[i]) && !Commented(s, p, i)
  }

  /** A line begins at `h`; `start` says whether one begins at `p`. */
  predicate LineBegins(s: bytes, p: nat, start: bool, h: nat) {
    (h == p && start) || (p < h <= |s| && LineEnd(s[h - 1]))
  }

  /** If `i` is the first content of its line it stands `n` spaces in. */
  ghost predicate InColumn(s: bytes, p: nat, start: bool, i: nat, n: int) {
    forall h: nat :: p <= h <= i && LineBegins(s, p, start, h) && NoLineEnd(s, h, i) ==> AllSpaces(s, h, i) && i - h == n
  }

  /** A tab stands behind the spaces a line begins with. */
  predicate TabLed(s: bytes, p: nat, start: bool, h: nat, k: nat) {
    p <= h && LineBegins(s, p, start, h) && AllSpaces(s, h, k) && k < |s| && s[k] == 9
  }

  /** No line that begins before `i` is indented with a tab. */
  ghost predicate NoTabs(s: bytes, p: nat, start: bool, i: nat) {
    forall h: nat, k: nat :: k < i ==> !TabLed(s, p, start, h, k)
  }

  // ---------------------------------------------------------------- marks, quotes and plain scalars

  /** A one-byte token; a dash or a colon is one only before a blank, a line end or the end. */
  predicate Marked(s: bytes, i: nat)
    requires i < |s|
  {
    s[i] in {123, 125, 91, 93, 44} || (s[i] in {45, 58} && BreakAt(s, i + 1))
  }

  predicate MarkOf(k: Kind, c: byte) {
    match k
    case KBullet => c == 45
    case KColon => c == 58
    case KComma => c == 44
    case KBraceOpen => c == 123
    case KBraceClose => c == 125
    case KBracketOpen => c == 91
    case KBracketClose => c == 93
    case _ => false
  }

  /** What may stand between quotes: in single quotes a doubled quote stands for one, in double
      quotes a backslash keeps the byte behind it from closing. */
  predicate QuotedBody(b: bytes, quote: byte) {
    if b == [] then true
    else if quote == 39 && b[0] == 39 then |b| > 1 && b[1] == 39 && QuotedBody(b[2..], quote)
    else if quote == 34 && b[0] == 92 then |b| > 1 && QuotedBody(b[2..], quote)
    else b[0] != quote && QuotedBody(b[1..], quote)
  }

  /** A body that the end of the input cuts off, perhaps behind a backslash. */
  predicate OpenBody(b: bytes, quote: byte) {
    QuotedBody(b, quote) || (quote == 34 && b != [] && b[|b| - 1] == 92 && QuotedBody(b[..|b| - 1], quote))
  }

  predicate QuotedAt(s: bytes, i: nat, tok: YToken, j: nat)
    requires i < |s|
  {
    && tok.kind == KString && tok.start == i + 1 && j == tok.start + tok.len + 1 <= |s|
    && s[j - 1] == s[i] && QuotedBody(s[i + 1..j - 1], s[i])
    && (s[i] == 39 && j < |s| ==> s[j] != 39)
  }

  predicate StopAt(s: bytes, k: nat, flow: nat)
    requires k < |s|
  {
    LineEnd(s[k]) || s[k] == 35 || (flow > 0 && s[k] in {44, 125, 93}) || (s[k] == 58 && BreakAt(s, k + 1))
  }

  /** The kind of a plain scalar by its bytes: `true`, `false`, `null`, a number or text. */
  predicate KindIs(number: bytes -> bool, text: bytes, k: Kind) {
    && (k == KTrue <==> text == [116, 114, 117, 101])
    && (k == KFalse <==> text == [102, 97, 108, 115, 101])
    && (k == KNull <==> text == [110, 117, 108, 108])
    && (k == KNumber <==> number(text) && |text| <= 63
                          && text !in {[116, 114, 117, 101], [102, 97, 108, 115, 101], [110, 117, 108, 108]})
    && k in {KTrue, KFalse, KNull, KNumber, KString}
  }

  /** A plain scalar runs to the first byte that stops it, without the blanks before that. */
  predicate PlainAt(s: bytes, number: bytes -> bool, flow: nat, i: nat, tok: YToken, j: nat) {
    && tok.start == i && 0 < tok.len && i + tok.len <= j <= |s|
    && (forall k :: i < k < j ==> !StopAt(s, k, flow))
    && (j < |s| ==> StopAt(s, j, flow))
    && !Blank(s[i + tok.len - 1])
    && (forall k :: i + tok.len <= k < j ==> Blank(s[k]))
    && KindIs(number, s[i..i + tok.len], tok.kind)
  }

  // ---------------------------------------------------------------- block scalars

  /** From `a` on one line end if one is there, CR LF counting as one. */
  predicate OneBreak(s: bytes, a: nat, b: nat) {
    a <= b <= |s| &&
    if a < |s| && LineEnd(s[a]) then b == (if s[a] == 13 && a + 1 < |s| && s[a + 1] == 10 then a + 2 else a + 1) else b == a
  }

  predicate HeaderByte(c: byte) { c == 43 || c == 45 || 48 <= c <= 57 }

  /** Signs and digits, blanks, a comment and a line end stand behind the block sign. */
  predicate HeaderParts(s: bytes, i: nat, a: nat, b: nat, e: nat, h: nat) {
    && i < a <= b <= e <= h <= |s|
    && (forall k :: i < k < a ==> HeaderByte(s[k])) && (a < |s| ==> !HeaderByte(s[a]))
    && (forall k :: a <= k < b ==> Blank(s[k])) && (b < |s| ==> !Blank(s[b]))
    && (if b < |s| && s[b] == 35 then NoLineEnd(s, b, e) && (e < |s| ==> LineEnd(s[e])) else e == b)
    && OneBreak(s, e, h)
  }

  ghost predicate Header(s: bytes, i: nat, h: nat) {
    exists a: nat, b: nat, e: nat :: HeaderParts(s, i, a, b, e, h)
  }

  /** A line begins at `p`, or the first of them at `h`. */
  predicate HeadsLine(s: bytes, h: nat, p: nat) {
    p == h || (h < p <= |s| && LineEnd(s[p - 1]) && !(s[p - 1] == 13 && p < |s| && s[p] == 10))
  }

  predicate BlankTo(s: bytes, p: nat, i: nat) {
    AllSpaces(s, p, i) && (i == |s| || LineEnd(s[i]) || s[i] == 35)
  }

  /** Only spaces or a comment stand on the line. */
  ghost predicate BlankLine(s: bytes, p: nat) {
    exists i: nat :: BlankTo(s, p, i)
  }

  ghost predicate BlankLines(s: bytes, h: nat, q: nat) {
    && h <= q <= |s| && (q < |s| ==> HeadsLine(s, h, q))
    && forall p: nat :: h <= p < q && HeadsLine(s, h, p) ==> BlankLine(s, p)
  }

  /** The lines that belong to a block indented by `n`, up to the first that does not. */
  ghost predicate BlockLines(s: bytes, q: nat, n: nat, j: nat) {
    && q + n <= j <= |s|
    && (forall p: nat :: q <= p < j && HeadsLine(s, q, p) ==> BlankLine(s, p) || AllSpaces(s, p, p + n))
    && (j < |s| ==> HeadsLine(s, q, j) && !BlankLine(s, j) && !AllSpaces(s, j, j + n))
  }

  /** The block's first line is the one at `q`, `n` spaces in. */
  ghost predicate BlockParts(s: bytes, parent: int, i: nat, tok: YToken, j: nat, h: nat, q: nat, n: nat) {
    && tok.kind == KString && Header(s, i, h) && BlankLines(s, h, q)
    && if q == |s| then tok.start == |s| && tok.len == 0 && j == |s|
       else
         && q + n < |s| && AllSpaces(s, q, q + n) && s[q + n] != 32 && !BlankLine(s, q)
         && if n <= parent then tok.start == q && tok.len == 0 && j == q
            else tok.start == q + n && q + n + tok.len == j && BlockLines(s, q, n, j)
  }

  ghost predicate BlockAt(s: bytes, parent: int, i: nat, tok: YToken, j: nat) {
    exists h: nat, q: nat, n: nat :: BlockParts(s, parent, i, tok, j, h, q, n)
  }

  // ---------------------------------------------------------------- the tokens of a text

  /** Where the reader is: whether a line begins there, how many flow brackets are open, and
      the open indentation levels, innermost last. */
  datatype Place = Place(pos: nat, start: bool, flow: nat, levels: seq<int>)

  function Innermost(levels: seq<int>): int
    requires levels != []
  {
    levels[|levels| - 1]
  }

  function FlowAfter(k: Kind, flow: nat): nat {
    match k
    case KBraceOpen => flow + 1
    case KBracketOpen => flow + 1
    case KBraceClose => if flow == 0 then 0 else flow - 1
    case KBracketClose => if flow == 0 then 0 else flow - 1
    case _ => flow
  }

  /** The token that begins with the byte at `i` and ends before `j`. */
  ghost predicate TokenAt(s: bytes, number: bytes -> bool, flow: nat, parent: int, i: nat, tok: YToken, j: nat)
    requires i < |s|
  {
    if Marked(s, i) then MarkOf(tok.kind, s[i]) && tok.start == i && tok.len == 1 && j == i + 1
    else if s[i] == 34 || s[i] == 39 then QuotedAt(s, i, tok, j)
    else if s[i] == 124 || s[i] == 62 then BlockAt(s, parent, i, tok, j)
    else PlainAt(s, number, flow, i, tok, j)
  }

  /** Outside flow brackets content that begins a line stands in the column of the innermost
      level, and no tab is passed over in an indentation. */
  ghost predicate InPlace(s: bytes, a: Place, i: nat)
    requires a.levels != []
  {
    a.flow == 0 ==> InColumn(s, a.pos, a.start, i, Innermost(a.levels)) && NoTabs(s, a.pos, a.start, i)
  }

  /** The content at `i` is in its place, and behind it the reader is at `b`. */
  ghost predicate ContentStep(s: bytes, number: bytes -> bool, a: Place, i: nat, tok: YToken, b: Place)
    requires a.levels != []
  {
    && ContentAt(s, a.pos, i) && InPlace(s, a, i)
    && TokenAt(s, number, a.flow, Innermost(a.levels), i, tok, b.pos)
    && b.levels == a.levels && b.flow == FlowAfter(tok.kind, a.flow)
    && (b.start <==> !Marked(s, i) && (s[i] == 124 || s[i] == 62))
  }

  /** A quote that is never closed. */
  ghost predicate OpenQuote(s: bytes, a: Place, i: nat, tok: YToken, b: Place)
    requires a.levels != []
  {
    && ContentAt(s, a.pos, i) && InPlace(s, a, i)
    && (s[i] == 34 || s[i] == 39) && OpenBody(s[i + 1..], s[i])
    && tok == YToken(KError, i + 1, |s| - (i + 1)) && b.pos >= |s| && b == Place(b.pos, false, a.flow, a.levels)
  }

  /** Outside flow brackets a line begins at `h` whose first content is at `i`. */
  ghost predicate LineAt(s: bytes, a: Place, h: nat, i: nat) {
    && a.flow == 0 && ContentAt(s, a.pos, i) && a.pos <= h && LineBegins(s, a.pos, a.start, h) && AllSpaces(s, h, i)
    && NoTabs(s, a.pos, a.start, i)
  }

  /** A tab in the indentation of a line outside flow brackets. */
  ghost predicate TabAt(s: bytes, a: Place, h: nat, i: nat) {
    && a.flow == 0 && Gap(s, a.pos, i) && !Commented(s, a.pos, i) && TabLed(s, a.pos, a.start, h, i)
    && NoTabs(s, a.pos, a.start, i)
  }

  /** A tab in the indentation, an indentation that closes no level, or one level too many. */
  ghost predicate IndentError(s: bytes, a: Place, h: nat, tok: YToken, b: Place)
    requires a.levels != []
  {
    && b == Place(b.pos, false, a.flow, a.levels)
    && var n := b.pos - h;
       || (TabAt(s, a, h, b.pos) && tok == YToken(KError, b.pos, 1))
       || (LineAt(s, a, h, b.pos) && n < Innermost(a.levels) && n !in a.levels && tok == YToken(KError, b.pos, 1))
       || (LineAt(s, a, h, b.pos) && n > Innermost(a.levels) && |a.levels| == 64 && tok == YToken(KError, 0, 0))
  }

  ghost predicate IndentTo(s: bytes, a: Place, i: nat, b: Place)
    requires a.levels != []
  {
    LineAt(s, a, b.pos, i) && i - b.pos > Innermost(a.levels) && |a.levels| < 64 && b == Place(b.pos, true, 0, a.levels + [i - b.pos])
  }

  ghost predicate DedentTo(s: bytes, a: Place, i: nat, b: Place)
    requires a.levels != []
  {
    LineAt(s, a, b.pos, i) && i - b.pos < Innermost(a.levels) && i - b.pos in a.levels
  }

  ghost predicate AtTheEnd(s: bytes, a: Place, b: Place) {
    Gap(s, a.pos, b.pos) && b.pos >= |s| && (a.flow == 0 ==> NoTabs(s, a.pos, a.start, b.pos))
  }

  /** The next token at `a` is `tok`, and behind it the reader is at `b`. */
  ghost predicate TokenStep(s: bytes, number: bytes -> bool, a: Place, tok: YToken, b: Place)
    requires a.levels != []
  {
    match tok.kind
    case KEof => tok == YToken(KEof, 0, 0) && |a.levels| == 1 && AtTheEnd(s, a, b)
    case KIndent => tok == YToken(KIndent, 0, 0) && exists i: nat :: IndentTo(s, a, i, b)
    case KDedent =>
      && tok == YToken(KDedent, 0, 0) && |a.levels| > 1 && b == Place(b.pos, true, a.flow, a.levels[..|a.levels| - 1])
      && (AtTheEnd(s, a, b) || exists i: nat :: DedentTo(s, a, i, b))
    case KError => (exists h: nat :: IndentError(s, a, h, tok, b)) || exists i: nat :: OpenQuote(s, a, i, tok, b)
    case _ => exists i: nat :: ContentStep(s, number, a, i, tok, b)
  }

  /** These are the tokens from `a` on, with EOF as the last. */
  ghost predicate Reads(s: bytes, number: bytes -> bool, a: Place, toks: seq<YToken>)
    decreases |toks|
  {
    a.levels != [] && toks != [] &&
    exists b: Place ::
      && TokenStep(s, number, a, toks[0], b)
      && if toks[0].kind == KEof then |toks| == 1 else Reads(s, number, b, toks[1..])
  }

  /** A text is read from behind its byte order mark, at the start of a line. */
  function TextStart(s: bytes): Place {
    Place(if |s| >= 3 && s[0] == 0xEF && s[1] == 0xBB && s[2] == 0xBF then 3 else 0, true, 0, [0])
  }
}
