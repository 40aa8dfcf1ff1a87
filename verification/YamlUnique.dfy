/** No other token sequence does, and the slices of the tokens are apart. */
module YamlUnique {
  import opened Bytes
  import opened YamlTokens
  import opened YamlText
  import opened YamlReading

  // ---------------------------------------------------------------- a text has one stream

  lemma ContentUnique(s: bytes, p: nat, i: nat, j: nat)
    requires ContentAt(s, p, i) && ContentAt(s, p, j)
    ensures i == j
  {
    hide Commented;
    assert i < j ==> Skipped(s, p, i);
    assert j < i ==> Skipped(s, p, j);
  }

  lemma LineUnique(s: bytes, p: nat, start: bool, g: nat, h: nat, i: nat)
    requires p <= g && LineBegins(s, p, start, g) && AllSpaces(s, g, i)
    requires p <= h && LineBegins(s, p, start, h) && AllSpaces(s, h, i)
    ensures g == h
  {
    forall m: nat | (g <= m || h <= m) && m < i ensures !LineEnd(s[m]) {
    }
  }

  /** A tab at the start of a line, content and the end of the input exclude each other. */
  lemma TabAlone(s: bytes, a: Place, h: nat, k: nat, i: nat)
    requires TabAt(s, a, h, k)
    ensures NoTabs(s, a.pos, a.start, i) ==> i <= k
    ensures ContentAt(s, a.pos, i) ==> k < i
  {
    hide Commented;
    if ContentAt(s, a.pos, i) {
      assert i < k ==> Skipped(s, a.pos, i);
    }
  }

  lemma EndAlone(s: bytes, a: Place, b: Place, i: nat)
    requires AtTheEnd(s, a, b)
    ensures !ContentAt(s, a.pos, i)
  {
    hide Commented;
    assert a.pos <= i < b.pos ==> Skipped(s, a.pos, i);
  }

  // What stands between quotes.

  /** The quote at `c` closes what stands before it. */
  ghost predicate ClosesAt(b: bytes, quote: byte, c: nat) {
    c < |b| && b[c] == quote && QuotedBody(b[..c], quote) && (quote == 39 && c + 1 < |b| ==> b[c + 1] != 39)
  }

  /** A body does not go on behind the quote that closes it. */
  lemma {:induction false} NothingLonger(b: bytes, quote: byte, c: nat, d: nat)
    requires (quote == 39 || quote == 34) && ClosesAt(b, quote, c) && c < d <= |b|
    ensures !QuotedBody(b[..d], quote)
    decreases c
  {
    if c > 0 {
      var n := if (quote == 39 && b[0] == 39) || (quote == 34 && b[0] == 92) then 2 else 1;
      BodyFront(b[..c], quote, n);
      BodyFront(b[..d], quote, n);
      assert b[n..][..c - n] == b[..c][n..] && b[n..][..d - n] == b[..d][n..];
      NothingLonger(b[n..], quote, c - n, d - n);
    } else if quote == 39 && d > 1 {
      assert b[..d][1] == b[1];
    }
  }

  lemma BodyFront(b: bytes, quote: byte, n: nat)
    requires b != [] && n == if (quote == 39 && b[0] == 39) || (quote == 34 && b[0] == 92) then 2 else 1
    ensures QuotedBody(b, quote) ==> n <= |b| && QuotedBody(b[n..], quote)
  {
  }

  lemma CloseUnique(b: bytes, quote: byte, c: nat, d: nat)
    requires (quote == 39 || quote == 34) && ClosesAt(b, quote, c) && ClosesAt(b, quote, d)
    ensures c == d
  {
    hide QuotedBody;
    if c < d {
      NothingLonger(b, quote, c, d);
    } else if d < c {
      NothingLonger(b, quote, d, c);
    }
  }

  lemma ClosedNotOpen(b: bytes, quote: byte, c: nat)
    requires (quote == 39 || quote == 34) && ClosesAt(b, quote, c)
    ensures !OpenBody(b, quote)
  {
    hide QuotedBody;
    assert b[..|b|] == b;
    NothingLonger(b, quote, c, |b|);
    if c < |b| - 1 {
      NothingLonger(b, quote, c, |b| - 1);
    }
  }

  lemma QuotedCloses(s: bytes, i: nat, tok: YToken, j: nat)
    requires i < |s| && (s[i] == 34 || s[i] == 39) && QuotedAt(s, i, tok, j)
    ensures j >= i + 2 && ClosesAt(s[i + 1..], s[i], j - i - 2) && tok == YToken(KString, i + 1, j - i - 2)
  {
    hide QuotedBody;
    assert s[i + 1..][..j - i - 2] == s[i + 1..j - 1];
  }

  // Blocks and plain scalars.

  lemma HeaderUnique(s: bytes, i: nat, h: nat, k: nat)
    requires Header(s, i, h) && Header(s, i, k)
    ensures h == k
  {
    hide HeaderByte;
    var a: nat, b: nat, e: nat :| HeaderParts(s, i, a, b, e, h);
    var c: nat, d: nat, f: nat :| HeaderParts(s, i, c, d, f, k);
    assert a == c;
    assert b == d;
    assert e == f;
  }

  lemma BlockUnique(s: bytes, parent: int, i: nat, t: YToken, j: nat, u: YToken, k: nat)
    requires BlockAt(s, parent, i, t, j) && BlockAt(s, parent, i, u, k)
    ensures t == u && j == k
  {
    hide Header;
    hide HeadsLine;
    hide BlankLine;
    hide AllSpaces;
    var h: nat, q: nat, n: nat :| BlockParts(s, parent, i, t, j, h, q, n);
    var g: nat, p: nat, m: nat :| BlockParts(s, parent, i, u, k, g, p, m);
    HeaderUnique(s, i, h, g);
    assert q == p;
    if q < |s| {
      SameSpaces(s, q, q + n, q + m);
      if n > parent {
        BlockLinesUnique(s, q, n, j, k);
      }
    }
  }

  lemma BlockLinesUnique(s: bytes, q: nat, n: nat, j: nat, k: nat)
    requires BlockLines(s, q, n, j) && BlockLines(s, q, n, k)
    ensures j == k
  {
    hide HeadsLine;
    hide BlankLine;
    hide AllSpaces;
  }

  lemma KindUnique(number: bytes -> bool, text: bytes, k: Kind, m: Kind)
    requires KindIs(number, text, k) && KindIs(number, text, m)
    ensures k == m
  {
  }

  lemma PlainUnique(s: bytes, number: bytes -> bool, flow: nat, i: nat, t: YToken, j: nat, u: YToken, k: nat)
    requires i < |s| && PlainAt(s, number, flow, i, t, j) && PlainAt(s, number, flow, i, u, k)
    ensures t == u && j == k
  {
    hide StopAt;
    hide KindIs;
    hide Blank;
    KindUnique(number, s[i..i + t.len], t.kind, u.kind);
  }

  lemma MarkUnique(k: Kind, m: Kind, c: byte)
    requires MarkOf(k, c) && MarkOf(m, c)
    ensures k == m
  {
  }

  lemma TokenUnique(s: bytes, number: bytes -> bool, flow: nat, parent: int, i: nat, t: YToken, j: nat, u: YToken, k: nat)
    requires i < |s| && TokenAt(s, number, flow, parent, i, t, j) && TokenAt(s, number, flow, parent, i, u, k)
    ensures t == u && j == k
  {
    hide BlockAt;
    hide PlainAt;
    hide QuotedAt;
    hide MarkOf;
    hide Marked;
    if Marked(s, i) {
      MarkUnique(t.kind, u.kind, s[i]);
    } else if s[i] == 34 || s[i] == 39 {
      QuotedCloses(s, i, t, j);
      QuotedCloses(s, i, u, k);
      CloseUnique(s[i + 1..], s[i], j - i - 2, k - i - 2);
    } else if s[i] == 124 || s[i] == 62 {
      BlockUnique(s, parent, i, t, j, u, k);
    } else {
      PlainUnique(s, number, flow, i, t, j, u, k);
    }
  }

  // Steps.

  /** The same place; behind the end of the input the position does not matter. */
  predicate SamePlace(s: bytes, a: Place, b: Place) {
    (a == b || (a == b.(pos := a.pos) && a.pos >= |s| && b.pos >= |s|)) && a.levels != []
  }

  /** Which kind of thing comes next. */
  datatype Next = AtEnd | AtTab(i: nat) | AtContent(i: nat)

  ghost predicate Comes(s: bytes, a: Place, n: Next)
    requires a.levels != []
  {
    match n
    case AtEnd => exists b: Place :: AtTheEnd(s, a, b)
    case AtTab(i) => exists h: nat :: TabAt(s, a, h, i)
    case AtContent(i) => ContentAt(s, a.pos, i) && (a.flow == 0 ==> NoTabs(s, a.pos, a.start, i))
  }

  lemma ComesOne(s: bytes, a: Place, n: Next, m: Next)
    requires a.levels != [] && Comes(s, a, n) && Comes(s, a, m)
    ensures n == m
  {
    hide ContentAt;
    hide AtTheEnd;
    hide TabAt;
    hide NoTabs;
    match n {
      case AtEnd =>
        var b: Place :| AtTheEnd(s, a, b);
        EndOrTab(s, a, b, m);
      case AtTab(k) =>
        var h: nat :| TabAt(s, a, h, k);
        if m.AtEnd? {
          var b: Place :| AtTheEnd(s, a, b);
          EndOrTab(s, a, b, n);
        } else {
          TabOrContent(s, a, h, k, m);
        }
      case AtContent(i) =>
        if m.AtEnd? {
          var b: Place :| AtTheEnd(s, a, b);
          EndOrTab(s, a, b, n);
        } else if m.AtTab? {
          var h: nat :| TabAt(s, a, h, m.i);
          TabOrContent(s, a, h, m.i, n);
        } else {
          ContentUnique(s, a.pos, i, m.i);
        }
    }
  }

  lemma EndNoTab(s: bytes, a: Place, b: Place, h: nat, i: nat)
    requires AtTheEnd(s, a, b)
    ensures !TabAt(s, a, h, i)
  {
    hide Gap;
    hide Commented;
    hide TabLed;
    TabBound(s, a.pos, a.start, h, i);
  }

  lemma TabBound(s: bytes, p: nat, start: bool, h: nat, k: nat)
    ensures TabLed(s, p, start, h, k) ==> k < |s|
  {
  }

  lemma EndOrTab(s: bytes, a: Place, b: Place, m: Next)
    requires a.levels != [] && AtTheEnd(s, a, b) && Comes(s, a, m)
    ensures m == AtEnd
  {
    hide ContentAt;
    hide TabAt;
    hide AtTheEnd;
    hide NoTabs;
    if m.AtTab? {
      forall h: nat ensures !TabAt(s, a, h, m.i) {
        EndNoTab(s, a, b, h, m.i);
      }
    } else if m.AtContent? {
      EndAlone(s, a, b, m.i);
    }
  }

  lemma TabOrContent(s: bytes, a: Place, h: nat, k: nat, m: Next)
    requires a.levels != [] && TabAt(s, a, h, k) && Comes(s, a, m) && !m.AtEnd?
    ensures m == AtTab(k)
  {
    hide ContentAt;
    hide NoTabs;
    hide TabAt;
    TabFlow(s, a, h, k);
    if m.AtTab? {
      var g: nat :| TabAt(s, a, g, m.i);
      TabFlow(s, a, g, m.i);
      TabAlone(s, a, h, k, m.i);
      TabAlone(s, a, g, m.i, k);
    } else {
      TabAlone(s, a, h, k, m.i);
    }
  }

  lemma TabFlow(s: bytes, a: Place, h: nat, k: nat)
    requires TabAt(s, a, h, k)
    ensures a.flow == 0 && NoTabs(s, a.pos, a.start, k)
  {
    hide NoTabs;
    hide Gap;
  }

  /** The indentation token, or error, before a line whose content is not in the column of the
      innermost level. */
  ghost predicate LineToken(a: Place, h: nat, i: nat, tok: YToken, b: Place)
    requires a.levels != []
  {
    var n := i - h;
    if n > Innermost(a.levels) then
      if |a.levels| < 64 then tok == VIRTUAL_INDENT && b == Place(h, true, 0, a.levels + [n])
      else tok == YToken(KError, 0, 0) && b == Place(i, false, a.flow, a.levels)
    else if n in a.levels then tok == VIRTUAL_DEDENT && b == Place(h, true, a.flow, a.levels[..|a.levels| - 1])
    else tok == YToken(KError, i, 1) && b == Place(i, false, a.flow, a.levels)
  }

  ghost predicate OffColumn(s: bytes, a: Place, h: nat, i: nat)
    requires a.levels != []
  {
    LineAt(s, a, h, i) && h <= i && i - h != Innermost(a.levels)
  }

  ghost predicate TokenHere(s: bytes, number: bytes -> bool, a: Place, n: Next, tok: YToken, b: Place)
    requires a.levels != []
  {
    match n
    case AtEnd =>
      if |a.levels| == 1 then tok == YToken(KEof, 0, 0)
      else tok == VIRTUAL_DEDENT && b == Place(b.pos, true, a.flow, a.levels[..|a.levels| - 1]) && b.pos >= |s|
    case AtTab(i) => tok == YToken(KError, i, 1) && b == Place(i, false, a.flow, a.levels)
    case AtContent(i) =>
      || (exists h: nat :: OffColumn(s, a, h, i) && LineToken(a, h, i, tok, b))
      || ContentStep(s, number, a, i, tok, b) || OpenQuote(s, a, i, tok, b)
  }

  lemma LineParts(s: bytes, a: Place, h: nat, i: nat)
    requires LineAt(s, a, h, i)
    ensures a.flow == 0 && ContentAt(s, a.pos, i) && NoTabs(s, a.pos, a.start, i) && h <= i
  {
    hide ContentAt;
    hide NoTabs;
  }

  /** Every step answers to what comes next. */
  lemma StepComes(s: bytes, number: bytes -> bool, a: Place, tok: YToken, b: Place) returns (n: Next)
    requires a.levels != [] && TokenStep(s, number, a, tok, b)
    ensures Comes(s, a, n) && TokenHere(s, number, a, n, tok, b)
  {
    hide ContentAt;
    hide NoTabs;
    hide InColumn;
    hide LineAt;
    hide TabAt;
    hide TokenAt;
    hide OpenBody;
    hide FlowAfter;
    hide Gap;
    n := AtEnd;
    match tok.kind {
      case KEof =>
      case KIndent =>
        var i: nat :| IndentTo(s, a, i, b);
        LineParts(s, a, b.pos, i);
        n := AtContent(i);
        assert OffColumn(s, a, b.pos, i);
      case KDedent =>
        if !AtTheEnd(s, a, b) {
          var i: nat :| DedentTo(s, a, i, b);
          LineParts(s, a, b.pos, i);
          n := AtContent(i);
          assert OffColumn(s, a, b.pos, i);
        }
      case KError =>
        if h: nat :| IndentError(s, a, h, tok, b) {
          n := ErrorComes(s, number, a, h, tok, b);
        } else {
          var i: nat :| OpenQuote(s, a, i, tok, b);
          n := AtContent(i);
        }
      case _ =>
        var i: nat :| ContentStep(s, number, a, i, tok, b);
        n := AtContent(i);
    }
  }

  lemma ErrorComes(s: bytes, number: bytes -> bool, a: Place, h: nat, tok: YToken, b: Place) returns (n: Next)
    requires a.levels != [] && IndentError(s, a, h, tok, b)
    ensures Comes(s, a, n) && TokenHere(s, number, a, n, tok, b)
  {
    hide ContentAt;
    hide NoTabs;
    hide LineAt;
    hide TabAt;
    hide ContentStep;
    hide OpenQuote;
    if LineAt(s, a, h, b.pos) && tok.kind == KError && !(TabAt(s, a, h, b.pos) && tok == YToken(KError, b.pos, 1)) {
      LineParts(s, a, h, b.pos);
      n := AtContent(b.pos);
      assert OffColumn(s, a, h, b.pos);
    } else {
      n := AtTab(b.pos);
    }
  }

  /** Content out of its column is not read as content. */
  lemma OffNotOn(s: bytes, number: bytes -> bool, a: Place, h: nat, i: nat)
    requires a.levels != [] && OffColumn(s, a, h, i)
    ensures !InPlace(s, a, i)
  {
    hide ContentAt;
    hide NoTabs;
    assert NoLineEnd(s, h, i);
  }

  lemma QuoteExclusive(s: bytes, number: bytes -> bool, a: Place, i: nat, t: YToken, b: Place, u: YToken, c: Place)
    requires a.levels != [] && OpenQuote(s, a, i, t, b)
    ensures !ContentStep(s, number, a, i, u, c)
  {
    hide ContentAt;
    hide InPlace;
    hide OpenBody;
    hide QuotedAt;
    hide FlowAfter;
    if QuotedAt(s, i, u, c.pos) {
      QuotedCloses(s, i, u, c.pos);
      ClosedNotOpen(s[i + 1..], s[i], c.pos - i - 2);
    }
  }

  lemma HereUnique(s: bytes, number: bytes -> bool, a: Place, n: Next, t: YToken, b: Place, u: YToken, c: Place)
    requires a.levels != [] && TokenHere(s, number, a, n, t, b) && TokenHere(s, number, a, n, u, c)
    ensures t == u && (t.kind == KEof || (b.levels != [] ==> SamePlace(s, b, c)))
  {
    hide OffColumn;
    hide LineToken;
    hide ContentStep;
    hide OpenQuote;
    if n.AtContent? {
      var i := n.i;
      if h: nat :| OffColumn(s, a, h, i) && LineToken(a, h, i, t, b) {
        OffUnique(s, number, a, h, i, t, b, u, c);
      } else if h: nat :| OffColumn(s, a, h, i) && LineToken(a, h, i, u, c) {
        OffUnique(s, number, a, h, i, u, c, t, b);
      } else {
        OnUnique(s, number, a, i, t, b, u, c);
      }
    }
  }

  lemma OffUnique(s: bytes, number: bytes -> bool, a: Place, h: nat, i: nat, t: YToken, b: Place, u: YToken, c: Place)
    requires a.levels != [] && OffColumn(s, a, h, i) && LineToken(a, h, i, t, b) && TokenHere(s, number, a, AtContent(i), u, c)
    ensures t == u && b == c
  {
    hide ContentAt;
    hide NoTabs;
    hide InPlace;
    hide TokenAt;
    hide OpenBody;
    hide FlowAfter;
    OffNotOn(s, number, a, h, i);
    var g: nat :| OffColumn(s, a, g, i) && LineToken(a, g, i, u, c);
    LineUnique(s, a.pos, a.start, g, h, i);
  }

  lemma OnUnique(s: bytes, number: bytes -> bool, a: Place, i: nat, t: YToken, b: Place, u: YToken, c: Place)
    requires a.levels != [] && (ContentStep(s, number, a, i, t, b) || OpenQuote(s, a, i, t, b))
    requires ContentStep(s, number, a, i, u, c) || OpenQuote(s, a, i, u, c)
    ensures t == u && SamePlace(s, b, c)
  {
    hide ContentAt;
    hide InPlace;
    hide TokenAt;
    hide OpenBody;
    hide Marked;
    if OpenQuote(s, a, i, t, b) {
      QuoteExclusive(s, number, a, i, t, b, u, c);
    } else if OpenQuote(s, a, i, u, c) {
      QuoteExclusive(s, number, a, i, u, c, t, b);
    } else {
      ContentMeans(s, a.pos, i);
      TokenUnique(s, number, a.flow, Innermost(a.levels), i, t, b.pos, u, c.pos);
    }
  }

  /** Behind the end of the input only the end comes. */
  lemma PastComes(s: bytes, a: Place, n: Next)
    requires a.levels != [] && a.pos >= |s| && Comes(s, a, n)
    ensures n == AtEnd
  {
    hide Skipped;
    hide Commented;
  }

  lemma EndUnique(s: bytes, number: bytes -> bool, a: Place, t: YToken, b: Place, a2: Place, u: YToken, c: Place)
    requires SamePlace(s, a, a2) && a.pos >= |s| && a2.pos >= |s|
    requires TokenHere(s, number, a, AtEnd, t, b) && TokenHere(s, number, a2, AtEnd, u, c)
    ensures t == u && (t.kind == KEof || (b.levels != [] ==> SamePlace(s, b, c)))
  {
    hide Gap;
    hide NoTabs;
  }

  lemma StepUnique(s: bytes, number: bytes -> bool, a: Place, t: YToken, b: Place, a2: Place, u: YToken, c: Place)
    requires SamePlace(s, a, a2) && TokenStep(s, number, a, t, b) && TokenStep(s, number, a2, u, c)
    ensures t == u && (t.kind == KEof || (b.levels != [] ==> SamePlace(s, b, c)))
  {
    hide TokenStep;
    hide TokenHere;
    hide Comes;
    var n := StepComes(s, number, a, t, b);
    var m := StepComes(s, number, a2, u, c);
    if a == a2 {
      ComesOne(s, a, n, m);
      HereUnique(s, number, a, n, t, b, u, c);
    } else {
      PastComes(s, a, n);
      PastComes(s, a2, m);
      EndUnique(s, number, a, t, b, a2, u, c);
    }
  }

  lemma {:induction false} ReadsUnique(s: bytes, number: bytes -> bool, a: Place, x: seq<YToken>, a2: Place, y: seq<YToken>)
    requires SamePlace(s, a, a2) && Reads(s, number, a, x) && Reads(s, number, a2, y)
    ensures x == y
    decreases |x|
  {
    hide TokenStep;
    hide Reads;
    var b := ReadsFirst(s, number, a, x);
    var c := ReadsFirst(s, number, a2, y);
    StepUnique(s, number, a, x[0], b, a2, y[0], c);
    ReadsLength(s, number, a, x);
    ReadsLength(s, number, a2, y);
    if x[0].kind != KEof {
      ReadsLevels(s, number, b, x[1..]);
      ReadsUnique(s, number, b, x[1..], c, y[1..]);
    }
    assert x == [x[0]] + x[1..] && y == [y[0]] + y[1..];
  }

  lemma ReadsLevels(s: bytes, number: bytes -> bool, a: Place, toks: seq<YToken>)
    requires Reads(s, number, a, toks)
    ensures a.levels != []
  {
    hide TokenStep;
  }

  lemma ReadsLength(s: bytes, number: bytes -> bool, a: Place, toks: seq<YToken>)
    requires Reads(s, number, a, toks)
    ensures toks != [] && (toks[0].kind == KEof <==> |toks| == 1)
  {
    hide TokenStep;
    var b := ReadsFirst(s, number, a, toks);
    if toks[0].kind != KEof {
      var c: Place :| TokenStep(s, number, a, toks[0], c) && Reads(s, number, c, toks[1..]);
      ReadsLevels(s, number, c, toks[1..]);
    }
  }

  /** The stream is what the text says, and nothing else is. */
  lemma StreamExact(s: bytes, number: bytes -> bool, toks: seq<YToken>)
    ensures LevelsOk(Start(s).levels)
    ensures Reads(s, number, TextStart(s), toks) <==> toks == Stream(s, number, Start(s))
  {
    hide Reads;
    hide Stream;
    StreamReads(s, number);
    if Reads(s, number, TextStart(s), toks) {
      ReadsUnique(s, number, TextStart(s), toks, TextStart(s), Stream(s, number, Start(s)));
    }
  }

  // ---------------------------------------------------------------- the slices

  /** Tokens that stand for bytes of the text. */
  predicate Solid(k: Kind) { k != KEof && k != KIndent && k != KDedent && k != KError }

  predicate Within(s: bytes, p: nat, tok: YToken, q: nat) {
    p <= tok.start && tok.start + tok.len <= q && tok.start + tok.len <= |s|
  }

  lemma StepWithin(s: bytes, number: bytes -> bool, a: Place, tok: YToken, b: Place)
    requires a.levels != [] && TokenStep(s, number, a, tok, b)
    ensures a.pos <= b.pos && (Solid(tok.kind) ==> Within(s, a.pos, tok, b.pos))
  {
    hide Skipped;
    hide Commented;
    hide InColumn;
    hide TokenAt;
    hide OpenBody;
    hide Rising;
    if Solid(tok.kind) {
      var i: nat :| ContentStep(s, number, a, i, tok, b);
      TokenWithin(s, number, a.flow, Innermost(a.levels), i, tok, b.pos);
    }
  }

  lemma TokenWithin(s: bytes, number: bytes -> bool, flow: nat, parent: int, i: nat, tok: YToken, j: nat)
    requires i < |s| && TokenAt(s, number, flow, parent, i, tok, j)
    ensures i <= j && Within(s, i, tok, j)
  {
    hide QuotedBody;
    hide KindIs;
    hide Header;
    hide HeadsLine;
    hide BlankLine;
    hide StopAt;
    if !Marked(s, i) && (s[i] == 124 || s[i] == 62) {
      var h: nat, q: nat, n: nat :| BlockParts(s, parent, i, tok, j, h, q, n);
      HeaderBehind(s, i, h);
    }
  }

  lemma HeaderBehind(s: bytes, i: nat, h: nat)
    requires Header(s, i, h)
    ensures i < h
  {
  }

  lemma ReadsFirst(s: bytes, number: bytes -> bool, a: Place, toks: seq<YToken>) returns (b: Place)
    requires Reads(s, number, a, toks)
    ensures a.levels != [] && toks != [] && TokenStep(s, number, a, toks[0], b)
    ensures |toks| > 1 ==> Reads(s, number, b, toks[1..])
  {
    hide TokenStep;
    b :| TokenStep(s, number, a, toks[0], b) && if toks[0].kind == KEof then |toks| == 1 else Reads(s, number, b, toks[1..]);
  }

  /** Every token that stands for bytes lies behind the place it is read from. */
  lemma {:induction false} SliceBehind(s: bytes, number: bytes -> bool, a: Place, toks: seq<YToken>, j: nat)
    requires Reads(s, number, a, toks) && j < |toks| && Solid(toks[j].kind)
    ensures Within(s, a.pos, toks[j], |s|)
    decreases j
  {
    hide Reads;
    hide TokenStep;
    var b := ReadsFirst(s, number, a, toks);
    StepWithin(s, number, a, toks[0], b);
    if j > 0 {
      SliceBehind(s, number, b, toks[1..], j - 1);
    }
  }

  /** The slices stand in the order of the tokens, apart from each other. */
  lemma {:induction false} SlicesApart(s: bytes, number: bytes -> bool, a: Place, toks: seq<YToken>, i: nat, j: nat)
    requires Reads(s, number, a, toks) && i < j < |toks| && Solid(toks[i].kind) && Solid(toks[j].kind)
    ensures toks[i].start + toks[i].len <= toks[j].start && toks[j].start + toks[j].len <= |s|
    decreases i
  {
    hide Reads;
    hide TokenStep;
    var b := ReadsFirst(s, number, a, toks);
    StepWithin(s, number, a, toks[0], b);
    if i > 0 {
      SlicesApart(s, number, b, toks[1..], i - 1, j - 1);
    } else {
      SliceBehind(s, number, b, toks[1..], j - 1);
    }
  }
}
