/** The lexer's token stream says what the text says. */
module YamlReading {
  import opened Bytes
  import opened YamlTokens
  import opened YamlText

  // ---------------------------------------------------------------- the functions of the lexer

  lemma {:induction false} BlankForms(s: bytes, p: nat)
    ensures AllBlank(s, p, BlankEnd(s, p))
    ensures BlankEnd(s, p) < |s| ==> !Blank(s[BlankEnd(s, p)])
    ensures p <= BlankEnd(s, p) && (p <= |s| ==> BlankEnd(s, p) <= |s|)
    decreases |s| - p
  {
    if p < |s| && IsBlank(s[p]) {
      BlankForms(s, p + 1);
      assert Blank(s[p]) && BlankEnd(s, p) == BlankEnd(s, p + 1);
    } else {
      assert BlankEnd(s, p) == p;
    }
  }

  lemma {:induction false} SpacesForms(s: bytes, p: nat)
    requires p <= |s|
    ensures AllSpaces(s, p, p + Spaces(s, p)) && (p + Spaces(s, p) < |s| ==> s[p + Spaces(s, p)] != 32)
    decreases |s| - p
  {
    if p < |s| && s[p] == 32 {
      SpacesForms(s, p + 1);
    }
  }

  lemma {:induction false} StopForms(s: bytes, p: nat)
    requires p <= |s|
    ensures p <= LineStop(s, p) <= |s| && NoLineEnd(s, p, LineStop(s, p))
    ensures LineStop(s, p) < |s| ==> LineEnd(s[LineStop(s, p)])
    decreases |s| - p
  {
    if p < |s| && !IsNewline(s[p]) {
      StopForms(s, p + 1);
    }
  }

  lemma BreakForms(s: bytes, p: nat)
    requires p <= |s|
    ensures OneBreak(s, p, AfterBreak(s, p))
  {
  }

  /** Where the next line begins. */
  lemma NextForms(s: bytes, p: nat) returns (e: nat)
    requires p < |s|
    ensures p <= e && p < NextLine(s, p) && e <= NextLine(s, p) <= |s| && NoLineEnd(s, p, e) && OneBreak(s, e, NextLine(s, p))
    ensures e == |s| || LineEnd(s[e])
  {
    hide LineStop;
    hide AfterBreak;
    e := LineStop(s, p);
    StopForms(s, p);
    BreakForms(s, e);
  }

  lemma BreakEnds(s: bytes, a: nat, b: nat)
    requires OneBreak(s, a, b) && a < |s| && LineEnd(s[a])
    ensures a < b <= |s| && LineEnd(s[b - 1]) && forall k :: a <= k < b ==> LineEnd(s[k])
  {
  }

  // ---------------------------------------------------------------- gaps

  lemma NoGap(s: bytes, p: nat)
    ensures Gap(s, p, p)
  {
  }

  lemma SkippedLater(s: bytes, p: nat, m: nat, k: nat)
    requires Skipped(s, m, k) && p <= m
    ensures Skipped(s, p, k)
  {
    hide Blank;
    hide LineEnd;
    hide NoLineEnd;
    if Commented(s, m, k) {
      var h: nat :| CommentFrom(s, m, h, k);
      assert CommentFrom(s, p, h, k);
    }
  }

  lemma GapJoin(s: bytes, p: nat, m: nat, i: nat)
    requires Gap(s, p, m) && Gap(s, m, i)
    ensures Gap(s, p, i)
  {
    hide Skipped;
    forall k: nat | p <= k < i ensures Skipped(s, p, k) {
      if k >= m {
        SkippedLater(s, p, m, k);
      }
    }
  }

  lemma BlankGap(s: bytes, p: nat, i: nat)
    requires p <= i && AllBlank(s, p, i)
    ensures Gap(s, p, i)
  {
    hide Blank;
    hide LineEnd;
    hide Commented;
  }

  /** An empty line or a comment, with its line end. */
  lemma LineGap(s: bytes, p: nat)
    requires p < |s| && (LineEnd(s[p]) || s[p] == 35)
    ensures p < NextLine(s, p) <= |s| && Gap(s, p, NextLine(s, p))
    ensures NextLine(s, p) == |s| || LineEnd(s[NextLine(s, p) - 1])
  {
    hide NextLine;
    var e := NextForms(s, p);
    var x := NextLine(s, p);
    forall k: nat | p <= k < x ensures Skipped(s, p, k) {
      if k < e {
        assert CommentFrom(s, p, p, k);
      }
    }
  }

  /** No comment that begins before `q` reaches it. */
  ghost predicate Clear(s: bytes, p: nat, q: nat) {
    forall h: nat :: p <= h < q && h < |s| && s[h] == 35 ==> !NoLineEnd(s, h, q)
  }

  /** A line begins at `q`, or nothing was passed over, or the input is at its end. */
  predicate LineOrHere(s: bytes, p: nat, q: nat) {
    q == p || q >= |s| || (p < q && LineEnd(s[q - 1]))
  }

  /** A line of spaces with nothing or a comment behind them. */
  lemma LineTabs(s: bytes, p: nat, m: nat)
    requires AllSpaces(s, p, m) && m < |s| && (LineEnd(s[m]) || s[m] == 35)
    ensures m < NextLine(s, m) && NoTabs(s, p, true, NextLine(s, m))
  {
    hide NextLine;
    var e := NextForms(s, m);
    forall h: nat, k: nat | k < NextLine(s, m) ensures !TabLed(s, p, true, h, k) {
      if TabLed(s, p, true, h, k) {
        NotLed(s, p, m, e, NextLine(s, m), h, k);
      }
    }
  }

  lemma NotLed(s: bytes, p: nat, m: nat, e: nat, x: nat, h: nat, k: nat)
    requires AllSpaces(s, p, m) && m < |s| && (LineEnd(s[m]) || s[m] == 35)
    requires m <= e && NoLineEnd(s, m, e) && OneBreak(s, e, x) && (e == |s| || LineEnd(s[e])) && k < x
    ensures !TabLed(s, p, true, h, k)
  {
    if p <= h <= m {
      assert p < h ==> s[h - 1] == 32;
      assert m < k && AllSpaces(s, h, k) ==> s[m] == 32;
      assert h <= k < m ==> s[k] == 32;
    } else if m < h <= e {
      assert !LineEnd(s[h - 1]);
    }
  }

  /** Lines that begin behind a line end. */
  lemma TabsJoin(s: bytes, p: nat, start: bool, m: nat, q: nat)
    requires p < m <= |s| && NoTabs(s, p, start, m) && NoTabs(s, m, true, q)
    requires m == |s| || LineEnd(s[m - 1]) || LineEnd(s[m])
    ensures NoTabs(s, p, start, q)
  {
    forall k: nat | m < k <= |s| && LineEnd(s[m]) ensures !AllSpaces(s, m, k) {
    }
    forall h: nat, k: nat | k < q ensures !TabLed(s, p, start, h, k) {
      if h < m <= k {
        assert AllSpaces(s, h, k) ==> s[m - 1] == 32;
      } else if m <= h {
        assert TabLed(s, p, start, h, k) ==> TabLed(s, m, true, h, k);
      }
    }
  }

  lemma TabsSpaces(s: bytes, p: nat, q: nat, i: nat)
    requires NoTabs(s, p, true, q) && AllSpaces(s, q, i)
    ensures NoTabs(s, p, true, i)
  {
    forall h: nat, k: nat | k < i ensures !TabLed(s, p, true, h, k) {
      assert q <= k ==> s[k] == 32;
    }
  }

  lemma TabsNone(s: bytes, p: nat, start: bool)
    ensures NoTabs(s, p, start, p)
  {
  }

  lemma {:induction false} FirstLineForms(s: bytes, p: nat)
    requires p <= |s|
    ensures var q := FirstLine(s, p); p <= q <= |s| && Gap(s, p, q) && LineOrHere(s, p, q) && NoTabs(s, p, true, q)
    ensures var q := FirstLine(s, p); q + Spaces(s, q) <= |s| && (q + Spaces(s, q) < |s| ==> !IsEmptyLine(s, q))
    decreases |s| - p
  {
    hide Gap;
    hide NextLine;
    hide Spaces;
    hide LineEnd;
    hide NoTabs;
    TabsNone(s, p, true);
    var m := p + Spaces(s, p);
    if m < |s| && IsEmptyLine(s, p) {
      var x := NextLine(s, m);
      EmptyMeans(s, m);
      SpacesForms(s, p);
      SpaceGap(s, p, m);
      LineGap(s, m);
      GapJoin(s, p, m, x);
      FirstLineForms(s, x);
      GapJoin(s, p, x, FirstLine(s, x));
      LineTabs(s, p, m);
      TabsJoin(s, p, true, x, FirstLine(s, x));
    } else {
      NoGap(s, p);
    }
  }

  lemma EmptyMeans(s: bytes, m: nat)
    requires m < |s| && (IsNewline(s[m]) || s[m] == 35)
    ensures LineEnd(s[m]) || s[m] == 35
  {
  }

  lemma SpaceGap(s: bytes, p: nat, i: nat)
    requires AllSpaces(s, p, i)
    ensures Gap(s, p, i)
  {
    hide Commented;
  }

  lemma ClearJoin(s: bytes, p: nat, m: nat, x: nat, q: nat)
    requires p <= m < x <= q <= |s| && LineEnd(s[x - 1]) && Clear(s, x, q)
    ensures Clear(s, p, q)
  {
    hide LineEnd;
  }

  lemma {:induction false} FlowForms(s: bytes, p: nat)
    requires p <= |s|
    ensures var q := FlowStart(s, p); p <= q <= |s| && Gap(s, p, q)
    ensures var q := FlowStart(s, p); q < |s| ==> !Blank(s[q]) && !LineEnd(s[q]) && s[q] != 35 && Clear(s, p, q)
    decreases |s| - p
  {
    hide Gap;
    hide NextLine;
    hide BlankEnd;
    hide Clear;
    var b := BlankEnd(s, p);
    BlankForms(s, p);
    BlankGap(s, p, b);
    if b < |s| && (IsNewline(s[b]) || s[b] == 35) {
      var x := NextLine(s, b);
      LineGap(s, b);
      GapJoin(s, p, b, x);
      FlowForms(s, x);
      GapJoin(s, p, x, FlowStart(s, x));
      if FlowStart(s, x) < |s| {
        ClearJoin(s, p, b, x, FlowStart(s, x));
      }
    } else if b < |s| {
      BlankClear(s, p, b);
    }
  }

  lemma BlankClear(s: bytes, p: nat, q: nat)
    requires AllBlank(s, p, q)
    ensures Clear(s, p, q)
  {
    hide NoLineEnd;
  }

  lemma ClearContent(s: bytes, p: nat, i: nat)
    requires Gap(s, p, i) && i < |s| && !Blank(s[i]) && !LineEnd(s[i]) && s[i] != 35 && Clear(s, p, i)
    ensures ContentAt(s, p, i)
  {
    hide Gap;
    hide Blank;
    forall h: nat | p <= h < i && s[h] == 35 ensures !NoLineEnd(s, h, i + 1) {
      assert !NoLineEnd(s, h, i);
    }
  }

  // ---------------------------------------------------------------- scalars and marks

  lemma MarkForms(s: bytes, i: nat)
    requires i < |s|
    ensures MarkKind(s, i).Some? <==> Marked(s, i)
    ensures MarkKind(s, i).Some? ==> MarkOf(MarkKind(s, i).value, s[i])
    ensures forall f: nat, k :: MarkKind(s, i) == Some(k) ==> FlowBehind(k, f) == FlowAfter(k, f)
  {
  }

  lemma BodyStep(b: bytes, quote: byte, n: nat)
    requires 0 < n <= |b| && (quote == 39 || quote == 34)
    requires (n == 1 && b[0] != quote && !(quote == 34 && b[0] == 92))
             || (n == 2 && ((quote == 39 && b[0] == 39 && b[1] == 39) || (quote == 34 && b[0] == 92)))
    ensures QuotedBody(b[n..], quote) ==> QuotedBody(b, quote)
    ensures OpenBody(b[n..], quote) ==> OpenBody(b, quote)
  {
    hide QuotedBody;
    BodyCons(b, quote, n);
    if quote == 34 && b[n..] != [] && QuotedBody(b[n..][..|b| - n - 1], quote) {
      var c := b[..|b| - 1];
      assert c[n..] == b[n..][..|b| - n - 1];
      BodyCons(c, quote, n);
    }
  }

  lemma BodyCons(b: bytes, quote: byte, n: nat)
    requires 0 < n <= |b| && (quote == 39 || quote == 34)
    requires (n == 1 && b[0] != quote && !(quote == 34 && b[0] == 92))
             || (n == 2 && ((quote == 39 && b[0] == 39 && b[1] == 39) || (quote == 34 && b[0] == 92)))
    ensures QuotedBody(b[n..], quote) ==> QuotedBody(b, quote)
  {
  }

  /** What is known about a quoted body from `i` on. */
  ghost predicate QuoteKnown(s: bytes, i: nat, quote: byte)
    requires i <= |s|
  {
    match QuoteEnd(s, i, quote)
    case Some(e) => i <= e && QuotedBody(s[i..e], quote) && (quote == 39 && e + 1 < |s| ==> s[e + 1] != 39)
    case None => OpenBody(s[i..], quote)
  }

  /** Stepping over `n` bytes keeps it. */
  lemma QuoteOver(s: bytes, i: nat, quote: byte, n: nat)
    requires i < |s| && 0 < n && i + n <= |s| && (quote == 39 || quote == 34)
    requires (n == 1 && s[i] != quote && !(quote == 34 && s[i] == 92))
             || (n == 2 && ((quote == 39 && s[i] == 39 && s[i + 1] == 39) || (quote == 34 && s[i] == 92)))
    requires QuoteEnd(s, i, quote) == QuoteEnd(s, i + n, quote) && QuoteKnown(s, i + n, quote)
    ensures QuoteKnown(s, i, quote)
  {
    hide QuotedBody;
    hide OpenBody;
    hide QuoteEnd;
    if QuoteEnd(s, i, quote).Some? {
      var e := QuoteEnd(s, i, quote).value;
      assert s[i..e][n..] == s[i + n..e];
      BodyStep(s[i..e], quote, n);
    } else {
      assert s[i..][n..] == s[i + n..];
      BodyStep(s[i..], quote, n);
    }
  }

  lemma {:induction false} QuoteForms(s: bytes, i: nat, quote: byte)
    requires i <= |s| && (quote == 39 || quote == 34)
    ensures QuoteKnown(s, i, quote)
    decreases |s| - i
  {
    hide QuotedBody;
    hide OpenBody;
    hide QuoteKnown;
    if i < |s| {
      var n := if s[i] == quote || (s[i] == 92 && quote == 34) then 2 else 1;
      if (s[i] == quote && !(quote == 39 && i + 1 < |s| && s[i + 1] == 39)) || i + n > |s| {
        QuoteLast(s, i, quote);
      } else {
        QuoteForms(s, i + n, quote);
        QuoteOver(s, i, quote, n);
      }
    } else {
      QuoteLast(s, i, quote);
    }
  }

  /** A quote that closes, an escape at the very end, or the end. */
  lemma QuoteLast(s: bytes, i: nat, quote: byte)
    requires i <= |s| && (quote == 39 || quote == 34)
    requires i == |s| || (s[i] == quote && !(quote == 39 && i + 1 < |s| && s[i + 1] == 39)) || (i + 1 == |s| && s[i] == 92 && quote == 34)
    ensures QuoteKnown(s, i, quote)
  {
    hide QuotedBody;
    hide OpenBody;
    EmptyBody(quote);
    assert s[i..i] == [];
    if i == |s| {
      assert s[i..] == [];
    } else if i + 1 == |s| && s[i] == 92 {
      assert s[i..] == [92];
    }
  }

  lemma EmptyBody(quote: byte)
    ensures QuotedBody([], quote) && OpenBody([], quote)
    ensures quote == 34 ==> OpenBody([92], quote)
  {
    assert [92 as byte][..0] == [];
    assert QuotedBody([], quote);
  }

  lemma StopsSame(s: bytes, k: nat, flow: nat)
    requires k < |s|
    ensures ScalarStops(s, k, flow) <==> StopAt(s, k, flow)
  {
  }

  lemma {:induction false} ScalarForms(s: bytes, i: nat, flow: nat)
    requires i <= |s|
    ensures var e := ScalarEnd(s, i, flow);
            && i <= e <= |s| && (forall k: nat :: i <= k < e ==> !StopAt(s, k, flow)) && (e < |s| ==> StopAt(s, e, flow))
    decreases |s| - i
  {
    hide ScalarStops;
    hide StopAt;
    if i < |s| {
      StopsSame(s, i, flow);
      if !ScalarStops(s, i, flow) {
        ScalarForms(s, i + 1, flow);
      }
    }
  }

  lemma KindForms(number: bytes -> bool, text: bytes)
    ensures KindIs(number, text, ScalarKind(number, text))
  {
  }

  lemma PlainForms(s: bytes, number: bytes -> bool, flow: nat, i: nat)
    requires i < |s| && !Blank(s[i])
    ensures var e := ScalarEnd(s, i + 1, flow);
            && i < e <= |s|
            && var t := Trimmed(s, i, e);
               PlainAt(s, number, flow, i, YToken(ScalarKind(number, s[i..t]), i, t - i), e)
  {
    hide ScalarEnd;
    hide Trimmed;
    hide StopAt;
    hide KindIs;
    hide ScalarKind;
    ScalarForms(s, i + 1, flow);
    var e := ScalarEnd(s, i + 1, flow);
    var t := Trimmed(s, i, e);
    assert t == i ==> IsBlank(s[i]);
    KindForms(number, s[i..t]);
  }

  // ---------------------------------------------------------------- blocks

  lemma {:induction false} MarksForms(s: bytes, p: nat)
    requires p <= |s|
    ensures var a := MarksEnd(s, p);
            p <= a <= |s| && (forall k :: p <= k < a ==> HeaderByte(s[k])) && (a < |s| ==> !HeaderByte(s[a]))
    decreases |s| - p
  {
    if p < |s| && HeaderByte(s[p]) {
      MarksForms(s, p + 1);
    }
  }

  lemma HeaderForms(s: bytes, i: nat)
    requires i < |s|
    ensures Header(s, i, HeaderEnd(s, i)) && i < HeaderEnd(s, i) <= |s|
  {
    hide MarksEnd;
    hide BlankEnd;
    hide LineStop;
    hide AfterBreak;
    hide HeaderByte;
    hide Blank;
    var a := MarksEnd(s, i + 1);
    MarksForms(s, i + 1);
    var b := BlankEnd(s, a);
    BlankForms(s, a);
    var e := if b < |s| && s[b] == 35 then LineStop(s, b) else b;
    StopForms(s, b);
    BreakForms(s, e);
    assert HeaderParts(s, i, a, b, e, HeaderEnd(s, i));
  }

  /** No line begins inside a line, and one begins behind it. */
  lemma NextHeads(s: bytes, h: nat, p: nat)
    requires h <= p < |s|
    ensures var x := NextLine(s, p); p < x <= |s| && (x < |s| ==> HeadsLine(s, h, x))
    ensures forall m: nat :: p < m < NextLine(s, p) ==> !HeadsLine(s, h, m)
  {
    hide NextLine;
    var e := NextForms(s, p);
    forall m: nat | p < m < NextLine(s, p) ensures !HeadsLine(s, h, m) {
      if m > e {
        assert s[e] == 13 && s[m] == 10 && m - 1 == e;
      } else {
        assert !LineEnd(s[m - 1]);
      }
    }
  }

  lemma SpacesHeads(s: bytes, h: nat, p: nat, i: nat)
    requires h <= p && AllSpaces(s, p, i)
    ensures forall m: nat :: p < m <= i ==> !HeadsLine(s, h, m)
  {
  }

  lemma EmptyIs(s: bytes, p: nat)
    requires p <= |s|
    ensures IsEmptyLine(s, p) <==> BlankLine(s, p)
  {
    hide Spaces;
    SpacesForms(s, p);
    var q := p + Spaces(s, p);
    if IsEmptyLine(s, p) {
      assert BlankTo(s, p, q);
    }
    if BlankLine(s, p) {
      var i: nat :| BlankTo(s, p, i);
      SameSpaces(s, p, i, q);
    }
  }

  lemma SameSpaces(s: bytes, p: nat, i: nat, q: nat)
    requires AllSpaces(s, p, i) && (i < |s| ==> s[i] != 32) && AllSpaces(s, p, q) && (q < |s| ==> s[q] != 32)
    ensures i == q
  {
  }

  lemma {:induction false} ContentForms(s: bytes, h: nat, p: nat)
    requires h <= p <= |s| && (p < |s| ==> HeadsLine(s, h, p))
    ensures var q := ContentLine(s, p);
            && p <= q <= |s| && (q < |s| ==> HeadsLine(s, h, q) && !BlankLine(s, q))
            && forall m: nat :: p <= m < q && HeadsLine(s, h, m) ==> BlankLine(s, m)
    decreases |s| - p
  {
    hide HeadsLine;
    hide BlankLine;
    hide IsEmptyLine;
    hide NextLine;
    hide Spaces;
    EmptyIs(s, p);
    if p < |s| && IsEmptyLine(s, p) {
      var i := p + Spaces(s, p);
      SpacesForms(s, p);
      SpacesHeads(s, h, p, i);
      if i < |s| {
        NextHeads(s, h, i);
        ContentForms(s, h, NextLine(s, i));
      } else {
        PastEnd(s, i);
      }
    }
  }

  lemma PastEnd(s: bytes, i: nat)
    requires i == |s|
    ensures NextLine(s, i) == i && ContentLine(s, i) == i && forall n: nat :: BlockEnd(s, i, n) == i
  {
  }

  lemma {:induction false} BlockForms(s: bytes, h: nat, p: nat, n: nat)
    requires h <= p <= |s| && (p < |s| ==> HeadsLine(s, h, p))
    ensures var j := BlockEnd(s, p, n);
            && p <= j <= |s| && (j < |s| ==> HeadsLine(s, h, j) && !BlankLine(s, j) && !AllSpaces(s, j, j + n))
            && forall m: nat :: p <= m < j && HeadsLine(s, h, m) ==> BlankLine(s, m) || AllSpaces(s, m, m + n)
    decreases |s| - p
  {
    hide HeadsLine;
    hide BlankLine;
    hide IsEmptyLine;
    hide NextLine;
    hide Spaces;
    EmptyIs(s, p);
    var i := p + Spaces(s, p);
    SpacesForms(s, p);
    if p < |s| && (IsEmptyLine(s, p) || Spaces(s, p) >= n) {
      SpacesHeads(s, h, p, i);
      if i < |s| {
        NextHeads(s, h, i);
        BlockForms(s, h, NextLine(s, i), n);
      } else {
        PastEnd(s, i);
      }
    }
  }

  lemma BlockTokenForms(s: bytes, i: nat, parent: int)
    requires i < |s|
    ensures BlockAt(s, parent, i, Block(s, i, parent).0, Block(s, i, parent).1) && Block(s, i, parent).1 <= |s|
  {
    hide HeadsLine;
    hide BlankLine;
    hide NextLine;
    hide Spaces;
    hide HeaderEnd;
    hide Header;
    hide ContentLine;
    hide BlockEnd;
    var h := HeaderEnd(s, i);
    HeaderForms(s, i);
    HeadsItself(s, h);
    ContentForms(s, h, h);
    var q := ContentLine(s, h);
    SpacesForms(s, q);
    var n := Spaces(s, q);
    var r := Block(s, i, parent);
    if q < |s| {
      HeadsItself(s, q);
      EmptyIs(s, q);
      FilledEnd(s, q);
      if n > parent {
        NextHeads(s, q, q + n);
        SpacesHeads(s, q, q, q + n);
        var x := NextLine(s, q + n);
        BlockForms(s, q, x, n);
        FirstInBlock(s, q, n, x, r.1);
      }
    }
    assert BlockParts(s, parent, i, r.0, r.1, h, q, n);
  }

  lemma HeadsItself(s: bytes, h: nat)
    ensures HeadsLine(s, h, h)
  {
  }

  lemma FilledEnd(s: bytes, q: nat)
    requires q < |s| && !IsEmptyLine(s, q)
    ensures q + Spaces(s, q) < |s|
  {
  }

  lemma FirstInBlock(s: bytes, q: nat, n: nat, x: nat, j: nat)
    requires q + n < x <= j <= |s| && AllSpaces(s, q, q + n)
    requires forall m: nat :: q < m <= q + n ==> !HeadsLine(s, q, m)
    requires forall m: nat :: q + n < m < x ==> !HeadsLine(s, q, m)
    requires forall m: nat :: x <= m < j && HeadsLine(s, q, m) ==> BlankLine(s, m) || AllSpaces(s, m, m + n)
    requires j < |s| ==> HeadsLine(s, q, j) && !BlankLine(s, j) && !AllSpaces(s, j, j + n)
    ensures BlockLines(s, q, n, j)
  {
    hide HeadsLine;
    hide BlankLine;
    hide AllSpaces;
  }

  // ---------------------------------------------------------------- lines

  /** What stands before the first content of a line, and the column it is in. */
  lemma LineForms(s: bytes, p: nat)
    requires p <= |s|
    ensures var q := FirstLine(s, p);
            var i := q + Spaces(s, q);
            && p <= q && i <= |s| && Gap(s, p, q) && Gap(s, p, i) && NoTabs(s, p, true, i)
            && (i < |s| ==>
                  && LineBegins(s, p, true, q) && AllSpaces(s, q, i) && InColumn(s, p, true, i, i - q)
                  && !Commented(s, p, i) && (s[i] != 9 ==> ContentAt(s, p, i)))
  {
    hide FirstLine;
    hide Spaces;
    hide Gap;
    hide Clear;
    hide InColumn;
    hide NoTabs;
    hide Commented;
    hide ContentAt;
    var q := FirstLine(s, p);
    FirstLineForms(s, p);
    SpacesForms(s, q);
    var i := q + Spaces(s, q);
    SpaceGap(s, q, i);
    TabsSpaces(s, p, q, i);
    GapJoin(s, p, q, i);
    if i < |s| {
      ColumnForms(s, p, q, i);
    }
  }

  lemma ColumnForms(s: bytes, p: nat, q: nat, i: nat)
    requires p <= q && i < |s| && LineOrHere(s, p, q) && AllSpaces(s, q, i) && s[i] != 32 && !LineEnd(s[i]) && s[i] != 35 && Gap(s, p, i)
    ensures InColumn(s, p, true, i, i - q) && LineBegins(s, p, true, q)
    ensures !Commented(s, p, i) && (s[i] != 9 ==> ContentAt(s, p, i))
  {
    hide Gap;
    forall h: nat | p <= h < q ensures !NoLineEnd(s, h, i) {
      assert LineEnd(s[q - 1]);
    }
    forall m: nat | q <= m < i ensures !LineEnd(s[m]) {
      assert s[m] == 32;
    }
    forall h: nat | p <= h <= i && s[h] == 35 ensures !NoLineEnd(s, h, i + 1) {
      assert h < q && LineEnd(s[q - 1]);
    }
  }

  /** Content at `q` behind exactly `n` spaces. */
  ghost predicate LineFits(s: bytes, q: nat, n: int) {
    exists i: nat :: FitsTo(s, q, i) && i - q == n
  }

  predicate FitsTo(s: bytes, q: nat, i: nat) {
    AllSpaces(s, q, i) && i < |s| && !Blank(s[i]) && !LineEnd(s[i]) && s[i] != 35
  }

  lemma FitsContent(s: bytes, q: nat, i: nat)
    requires FitsTo(s, q, i)
    ensures ContentAt(s, q, i) && BlankEnd(s, q) == i
  {
    hide Gap;
    hide BlankEnd;
    SpaceGap(s, q, i);
    SpacesEnd(s, q, i);
    forall h: nat | q <= h <= i ensures s[h] != 35 {
      assert h < i ==> s[h] == 32;
    }
  }

  lemma {:induction false} SpacesEnd(s: bytes, q: nat, i: nat)
    requires AllSpaces(s, q, i) && i < |s| && !Blank(s[i])
    ensures BlankEnd(s, q) == i
    decreases i - q
  {
    if q < i {
      SpacesEnd(s, q + 1, i);
    }
  }

  // ---------------------------------------------------------------- one step

  ghost predicate Rising(levels: seq<int>) {
    forall i, j :: 0 <= i < j < |levels| ==> levels[i] < levels[j]
  }

  /** The lexer's state is this place: levels still owed a DEDENT are open. */
  ghost predicate Matches(s: bytes, st: LState, a: Place) {
    && a.pos == st.pos && a.flow == st.flow && st.levels != [] && |a.levels| == |st.levels| + st.pending
    && st.levels == a.levels[..|st.levels|] && Rising(a.levels) && |a.levels| <= 64
    && (st.lineStart ==> a.start && st.pending == 0 && st.pos <= |s|)
    && (st.pending > 0 ==> a.start)
    && (a.start && !st.lineStart && st.pos < |s| ==> st.flow == 0 && LineFits(s, st.pos, Innermost(st.levels)))
  }

  /** A DEDENT that was owed. */
  lemma OwedStep(s: bytes, number: bytes -> bool, st: LState, a: Place) returns (b: Place)
    requires Matches(s, st, a) && st.pending > 0
    ensures TokenStep(s, number, a, VIRTUAL_DEDENT, b) && Matches(s, st.(pending := st.pending - 1), b)
  {
    hide ContentAt;
    hide Gap;
    hide FitsTo;
    b := Place(a.pos, true, a.flow, a.levels[..|a.levels| - 1]);
    if st.pos < |s| {
      var i: nat :| FitsTo(s, st.pos, i) && i - st.pos == Innermost(st.levels);
      FitsContent(s, st.pos, i);
      FitsSpaces(s, st.pos, i);
      assert i - st.pos == a.levels[|st.levels| - 1];
      assert DedentTo(s, a, i, b);
    } else {
      NoGap(s, a.pos);
    }
  }

  lemma FitsSpaces(s: bytes, q: nat, i: nat)
    requires FitsTo(s, q, i)
    ensures AllSpaces(s, q, i)
  {
  }

  /** The place behind an error in the indentation. */
  lemma ErrorForms(s: bytes, number: bytes -> bool, st: LState, a: Place, h: nat, tok: YToken, i: nat) returns (b: Place)
    requires Matches(s, st, a) && st.pending == 0 && tok.kind == KError
    requires IndentError(s, a, h, tok, Place(i, false, st.flow, a.levels))
    ensures TokenStep(s, number, a, tok, b) && Matches(s, st.(lineStart := false, pos := i), b)
  {
    hide IndentError;
    hide Rising;
    b := Place(i, false, st.flow, a.levels);
  }

  /** The place behind an INDENT. */
  lemma OpenForms(s: bytes, number: bytes -> bool, st: LState, a: Place, q: nat, i: nat) returns (b: Place)
    requires Matches(s, st, a) && st.pending == 0 && LineAt(s, a, q, i) && FitsTo(s, q, i)
    requires i - q > Innermost(st.levels) && |st.levels| < 64
    ensures TokenStep(s, number, a, VIRTUAL_INDENT, b)
    ensures Matches(s, st.(lineStart := false, pos := q, levels := st.levels + [i - q]), b)
  {
    hide ContentAt;
    hide FitsTo;
    hide Rising;
    assert a.levels == st.levels;
    RisingPush(st.levels, i - q);
    b := Place(q, true, 0, a.levels + [i - q]);
    assert IndentTo(s, a, i, b);
  }

  /** The place behind a DEDENT before a line of an outer level. */
  lemma CloseForms(s: bytes, number: bytes -> bool, st: LState, a: Place, q: nat, i: nat, k: nat) returns (b: Place)
    requires Matches(s, st, a) && st.pending == 0 && LineAt(s, a, q, i) && FitsTo(s, q, i)
    requires k < |st.levels| - 1 && st.levels[k] == i - q && i - q < Innermost(st.levels)
    ensures TokenStep(s, number, a, VIRTUAL_DEDENT, b)
    ensures Matches(s, st.(lineStart := false, pos := q, levels := st.levels[..k + 1], pending := |st.levels| - k - 2), b)
  {
    hide ContentAt;
    hide FitsTo;
    assert a.levels == st.levels;
    b := Place(q, true, a.flow, a.levels[..|a.levels| - 1]);
    assert st.levels[k] in a.levels;
    assert st.levels[..k + 1] == b.levels[..k + 1];
    assert DedentTo(s, a, i, b);
  }

  /** An indentation token, or an error in the indentation. */
  lemma IndentForms(s: bytes, number: bytes -> bool, st: LState, a: Place) returns (b: Place)
    requires Matches(s, st, a) && st.lineStart && st.flow == 0
    requires IndentStep(s, st.(lineStart := false)).0.Some?
    ensures var r := IndentStep(s, st.(lineStart := false));
            TokenStep(s, number, a, r.0.value, b) && Matches(s, r.1, b)
  {
    hide FirstLine;
    hide Spaces;
    hide Gap;
    hide Commented;
    hide ContentAt;
    hide InColumn;
    hide LevelOf;
    hide TokenStep;
    hide Rising;
    var q := FirstLine(s, st.pos);
    var n := Spaces(s, q);
    var i := q + n;
    LineForms(s, st.pos);
    assert a.levels == st.levels;
    if s[i] == 9 {
      b := ErrorForms(s, number, st, a, q, YToken(KError, i, 1), i);
    } else {
      ContentMeans(s, st.pos, i);
      if n > Innermost(st.levels) {
        if |st.levels| >= MAX_YAML_DEPTH {
          b := ErrorForms(s, number, st, a, q, YToken(KError, 0, 0), i);
        } else {
          b := OpenForms(s, number, st, a, q, i);
        }
      } else {
        LevelBelow(st.levels, n);
        var k := LevelOf(st.levels, n);
        if k == -1 {
          b := ErrorForms(s, number, st, a, q, YToken(KError, i, 1), i);
        } else {
          b := CloseForms(s, number, st, a, q, i, k);
        }
      }
    }
  }

  lemma ContentMeans(s: bytes, p: nat, i: nat)
    requires ContentAt(s, p, i)
    ensures i < |s| && !Blank(s[i]) && !LineEnd(s[i]) && s[i] != 35 && p <= i
  {
    hide Skipped;
    assert NoLineEnd(s, i, i + 1);
    assert s[i] == 35 ==> CommentFrom(s, p, i, i);
  }

  lemma RisingPush(levels: seq<int>, n: int)
    requires Rising(levels) && levels != [] && n > Innermost(levels)
    ensures Rising(levels + [n])
  {
    forall i | 0 <= i < |levels| ensures levels[i] < n {
      assert i < |levels| - 1 ==> levels[i] < levels[|levels| - 1];
    }
  }

  /** Where no indentation token is due the lexer comes to the next content, comment, line end
      or the end of the input. */
  lemma SettleForms(s: bytes, st: LState, a: Place)
    requires Matches(s, st, a) && st.pending == 0 && LineStep(s, st).0.None?
    ensures var r := LineStep(s, st).1;
            var i := BlankEnd(s, r.pos);
            && r.levels == st.levels && r.pending == 0 && r.flow == st.flow && !r.lineStart
            && Gap(s, a.pos, i)
            && (a.flow == 0 ==> NoTabs(s, a.pos, a.start, i))
            && (i < |s| && !EndsLine(s, i) ==> ContentAt(s, a.pos, i) && InPlace(s, a, i))
  {
    hide IndentStep;
    hide FlowStart;
    hide BlankEnd;
    hide Gap;
    hide ContentAt;
    hide InColumn;
    hide NoTabs;
    hide Clear;
    hide Rising;
    if !st.lineStart {
      InlineForms(s, st, a);
    } else if st.flow > 0 {
      var q := FlowStart(s, st.pos);
      FlowForms(s, st.pos);
      BlankForms(s, q);
      if q < |s| {
        NoBlanks(s, q);
        ClearContent(s, st.pos, q);
      } else {
        EndBlanks(s, q);
      }
    } else {
      SettledLine(s, st, a);
    }
  }

  lemma NoBlanks(s: bytes, q: nat)
    requires q < |s| && !Blank(s[q])
    ensures BlankEnd(s, q) == q
  {
  }

  lemma EndBlanks(s: bytes, q: nat)
    requires q >= |s|
    ensures BlankEnd(s, q) == q
  {
  }

  lemma InlineForms(s: bytes, st: LState, a: Place)
    requires Matches(s, st, a) && st.pending == 0 && !st.lineStart
    ensures var i := BlankEnd(s, st.pos);
            && Gap(s, a.pos, i)
            && (a.flow == 0 ==> NoTabs(s, a.pos, a.start, i))
            && (i < |s| && !EndsLine(s, i) ==> ContentAt(s, a.pos, i) && InPlace(s, a, i))
  {
    hide BlankEnd;
    hide Gap;
    hide ContentAt;
    hide Clear;
    hide Rising;
    hide NoTabs;
    hide InColumn;
    var p, i := st.pos, BlankEnd(s, st.pos);
    BlankForms(s, p);
    BlankGap(s, p, i);
    assert a.levels == st.levels;
    if a.start && p < |s| {
      var e: nat :| FitsTo(s, p, e) && e - p == Innermost(st.levels);
      FitsContent(s, p, e);
      FitsColumn(s, p, e);
    } else {
      NotFirst(s, p, a.start, i);
    }
    if i < |s| && !EndsLine(s, i) {
      BlankClear(s, p, i);
      ClearContent(s, p, i);
      if !a.start {
        NotFirstColumn(s, p, i, Innermost(a.levels));
      }
    }
  }

  lemma FitsColumn(s: bytes, p: nat, i: nat)
    requires FitsTo(s, p, i)
    ensures NoTabs(s, p, true, i) && InColumn(s, p, true, i, i - p)
  {
    forall h: nat | p < h <= i ensures !LineBegins(s, p, true, h) {
      assert s[h - 1] == 32;
    }
    forall h: nat, k: nat | k < i ensures !TabLed(s, p, true, h, k) {
      assert p <= k ==> s[k] == 32;
    }
  }

  /** Behind blanks no line begins. */
  lemma NotFirst(s: bytes, p: nat, start: bool, i: nat)
    requires AllBlank(s, p, i) && (start ==> p >= |s|)
    ensures NoTabs(s, p, start, i)
  {
    forall h: nat, k: nat | k < i ensures !TabLed(s, p, start, h, k) {
      if p < h <= k && h <= |s| {
        assert Blank(s[h - 1]);
      }
    }
  }

  lemma NotFirstColumn(s: bytes, p: nat, i: nat, n: int)
    requires AllBlank(s, p, i)
    ensures InColumn(s, p, false, i, n)
  {
    forall h: nat | p <= h <= i ensures !LineBegins(s, p, false, h) {
      assert p < h <= |s| ==> Blank(s[h - 1]);
    }
  }

  lemma SettledLine(s: bytes, st: LState, a: Place)
    requires Matches(s, st, a) && st.pending == 0 && st.lineStart && st.flow == 0
    requires IndentStep(s, st.(lineStart := false)).0.None?
    ensures var r := IndentStep(s, st.(lineStart := false)).1;
            var i := BlankEnd(s, r.pos);
            && r.levels == st.levels && r.pending == 0 && r.flow == st.flow && !r.lineStart
            && Gap(s, a.pos, i)
            && NoTabs(s, a.pos, a.start, i)
            && (i < |s| && !EndsLine(s, i) ==> ContentAt(s, a.pos, i) && InPlace(s, a, i))
  {
    hide FirstLine;
    hide Spaces;
    hide BlankEnd;
    hide LevelOf;
    hide Gap;
    hide ContentAt;
    hide InColumn;
    hide NoTabs;
    hide Commented;
    hide Rising;
    var q := FirstLine(s, st.pos);
    var i := q + Spaces(s, q);
    LineForms(s, st.pos);
    assert a.levels == st.levels;
    if i < |s| {
      ContentMeans(s, st.pos, i);
      NoBlanks(s, i);
    } else {
      EndBlanks(s, i);
    }
  }

  /** At the end of the input. */
  lemma EndForms(s: bytes, number: bytes -> bool, a: Place, at: LState, st: LState) returns (b: Place)
    requires Matches(s, st, a) && st.pending == 0 && Gap(s, a.pos, at.pos) && at.pos >= |s|
    requires a.flow == 0 ==> NoTabs(s, a.pos, a.start, at.pos)
    requires at.levels == st.levels && at.flow == st.flow && at.pending == 0 && !at.lineStart
    ensures |at.levels| > 1 ==>
              TokenStep(s, number, a, VIRTUAL_DEDENT, b) && Matches(s, at.(levels := at.levels[..1], pending := |at.levels| - 2), b)
    ensures |at.levels| == 1 ==> TokenStep(s, number, a, YToken(KEof, 0, 0), b)
  {
    hide Gap;
    hide NoTabs;
    hide LineFits;
    b := if |at.levels| > 1 then Place(at.pos, true, a.flow, a.levels[..|a.levels| - 1]) else a.(pos := at.pos);
    assert at.levels == a.levels;
    assert |at.levels| > 1 ==> at.levels[..1] == b.levels[..1];
  }

  /** The token that begins with content. */
  lemma ContentReads(s: bytes, number: bytes -> bool, a: Place, at: LState) returns (b: Place)
    requires a.levels == at.levels && at.levels != [] && a.flow == at.flow && at.pos < |s| && ContentAt(s, a.pos, at.pos)
    requires InPlace(s, a, at.pos)
    requires at.pending == 0 && !at.lineStart && Rising(a.levels) && |a.levels| <= 64
    ensures var r := Content(s, number, at); TokenStep(s, number, a, r.0, b) && Matches(s, r.1, b)
  {
    hide ContentAt;
    hide InPlace;
    hide Rising;
    hide MarkKind;
    hide Marked;
    hide MarkOf;
    hide QuoteEnd;
    hide Block;
    hide BlockAt;
    hide QuotedAt;
    hide PlainAt;
    hide OpenBody;
    hide ScalarKind;
    hide ScalarEnd;
    hide Trimmed;
    hide FlowAfter;
    hide FlowBehind;
    var i := at.pos;
    var c := s[i];
    var r := Content(s, number, at);
    MarkForms(s, i);
    ContentMeans(s, a.pos, i);
    b := Place(r.1.pos, MarkKind(s, i).None? && (c == 124 || c == 62), r.1.flow, a.levels);
    if MarkKind(s, i).Some? {
      MarkIs(MarkKind(s, i).value, c);
      assert ContentStep(s, number, a, i, r.0, b);
    } else if c == 34 || c == 39 {
      QuotedForms(s, i);
      FlowKept(KString, a.flow);
      if QuoteEnd(s, i + 1, c).Some? {
        assert ContentStep(s, number, a, i, r.0, b);
      } else {
        assert OpenQuote(s, a, i, r.0, b);
      }
    } else if c == 124 || c == 62 {
      BlockTokenForms(s, i, Innermost(a.levels));
      FlowKept(KString, a.flow);
      assert ContentStep(s, number, a, i, r.0, b);
    } else {
      PlainForms(s, number, a.flow, i);
      FlowKept(r.0.kind, a.flow);
      assert ContentStep(s, number, a, i, r.0, b);
    }
  }

  lemma MarkIs(k: Kind, c: byte)
    requires MarkOf(k, c)
    ensures k != KEof && k != KIndent && k != KDedent && k != KError
  {
  }

  lemma FlowKept(k: Kind, flow: nat)
    requires k in {KTrue, KFalse, KNull, KNumber, KString}
    ensures FlowAfter(k, flow) == flow
  {
  }

  lemma QuotedForms(s: bytes, i: nat)
    requires i < |s| && (s[i] == 34 || s[i] == 39)
    ensures match QuoteEnd(s, i + 1, s[i])
            case Some(e) => i < e < |s| && QuotedAt(s, i, YToken(KString, i + 1, e - (i + 1)), e + 1)
            case None => OpenBody(s[i + 1..], s[i])
  {
    hide QuoteEnd;
    hide QuotedBody;
    hide OpenBody;
    hide QuoteKnown;
    QuoteMeans(s, i + 1, s[i]);
  }

  lemma QuoteMeans(s: bytes, i: nat, quote: byte)
    requires i <= |s| && (quote == 39 || quote == 34)
    ensures match QuoteEnd(s, i, quote)
            case Some(e) => i <= e < |s| && s[e] == quote && QuotedBody(s[i..e], quote) && (quote == 39 && e + 1 < |s| ==> s[e + 1] != 39)
            case None => OpenBody(s[i..], quote)
  {
    hide QuotedBody;
    hide OpenBody;
    hide QuoteEnd;
    QuoteForms(s, i, quote);
  }

  // ---------------------------------------------------------------- the stream

  /** `c` is behind a line end or at the end of a comment, and a line counts as begun there. */
  ghost predicate Ahead(s: bytes, a: Place, c: Place) {
    && a.pos < c.pos <= |s| && c == a.(pos := c.pos, start := true) && Gap(s, a.pos, c.pos)
    && (a.flow == 0 ==> NoTabs(s, a.pos, a.start, c.pos))
    && (c.pos == |s| || LineEnd(s[c.pos - 1]) || LineEnd(s[c.pos]))
  }

  /** Content behind an empty line or a comment is content behind what stands before that. */
  lemma ContentWider(s: bytes, a: Place, c: Place, i: nat)
    requires Ahead(s, a, c) && Gap(s, c.pos, i) && i < |s| && !LineEnd(s[i]) && !Commented(s, c.pos, i)
    ensures Gap(s, a.pos, i) && !Commented(s, a.pos, i) && (ContentAt(s, c.pos, i) ==> ContentAt(s, a.pos, i))
    ensures forall n: int :: InColumn(s, c.pos, true, i, n) ==> InColumn(s, a.pos, a.start, i, n)
  {
    hide Gap;
    hide Skipped;
    GapJoin(s, a.pos, c.pos, i);
    GapForward(s, c.pos, i);
    forall h: nat | a.pos <= h < c.pos ensures !NoLineEnd(s, h, i) {
      assert LineEnd(s[c.pos - 1]) || (c.pos < i && LineEnd(s[c.pos]));
    }
    forall h: nat | c.pos <= h && CommentFrom(s, a.pos, h, i) ensures CommentFrom(s, c.pos, h, i) {
    }
  }

  lemma TabsWider(s: bytes, a: Place, c: Place, i: nat)
    requires Ahead(s, a, c) && a.flow == 0 && NoTabs(s, c.pos, true, i)
    ensures NoTabs(s, a.pos, a.start, i)
  {
    hide Gap;
    hide NoTabs;
    TabsJoin(s, a.pos, a.start, c.pos, i);
  }

  lemma PlaceWider(s: bytes, a: Place, c: Place, i: nat)
    requires a.levels != [] && Ahead(s, a, c) && ContentAt(s, c.pos, i) && InPlace(s, c, i)
    ensures ContentAt(s, a.pos, i) && InPlace(s, a, i)
  {
    hide Ahead;
    hide Gap;
    hide NoTabs;
    hide InColumn;
    hide Commented;
    AheadMeans(s, a, c);
    ContentWider(s, a, c, i);
    if a.flow == 0 {
      TabsWider(s, a, c, i);
    }
  }

  lemma EndWider(s: bytes, a: Place, c: Place, b: Place)
    requires Ahead(s, a, c) && AtTheEnd(s, c, b)
    ensures AtTheEnd(s, a, b)
  {
    hide Ahead;
    hide Gap;
    hide NoTabs;
    AheadMeans(s, a, c);
    GapJoin(s, a.pos, c.pos, b.pos);
    if a.flow == 0 {
      TabsWider(s, a, c, b.pos);
    }
  }

  lemma GapForward(s: bytes, p: nat, i: nat)
    requires Gap(s, p, i)
    ensures p <= i
  {
  }

  /** A line that begins behind that place begins behind this one. */
  lemma BeginsWider(s: bytes, a: Place, c: Place, h: nat, i: nat)
    requires Ahead(s, a, c) && LineBegins(s, c.pos, true, h) && c.pos <= h && AllSpaces(s, h, i) && i < |s| && !LineEnd(s[i])
    ensures LineBegins(s, a.pos, a.start, h) && a.pos <= h
  {
    hide Gap;
    assert h < i ==> s[h] == 32;
  }

  lemma LineWider(s: bytes, a: Place, c: Place, h: nat, i: nat)
    requires Ahead(s, a, c) && LineAt(s, c, h, i)
    ensures LineAt(s, a, h, i)
  {
    hide Ahead;
    hide Gap;
    hide InColumn;
    hide Commented;
    hide Blank;
    hide NoTabs;
    AheadMeans(s, a, c);
    BeginsWider(s, a, c, h, i);
    ContentWider(s, a, c, i);
    TabsWider(s, a, c, i);
  }

  lemma AheadMeans(s: bytes, a: Place, c: Place)
    requires Ahead(s, a, c)
    ensures c == a.(pos := c.pos, start := true) && Gap(s, a.pos, c.pos)
  {
    hide Gap;
  }

  lemma ErrorWider(s: bytes, a: Place, c: Place, h: nat, tok: YToken, b: Place)
    requires a.levels != [] && c.levels == a.levels && Ahead(s, a, c) && IndentError(s, c, h, tok, b)
    ensures IndentError(s, a, h, tok, b)
  {
    hide Ahead;
    hide Gap;
    hide InColumn;
    hide Commented;
    hide LineAt;
    hide TabAt;
    AheadMeans(s, a, c);
    if LineAt(s, c, h, b.pos) {
      LineWider(s, a, c, h, b.pos);
    }
    if TabAt(s, c, h, b.pos) {
      TabWider(s, a, c, h, b.pos);
    }
  }

  lemma TabWider(s: bytes, a: Place, c: Place, h: nat, i: nat)
    requires Ahead(s, a, c) && TabAt(s, c, h, i)
    ensures TabAt(s, a, h, i)
  {
    hide Ahead;
    hide Gap;
    hide InColumn;
    hide Commented;
    hide ContentAt;
    hide NoTabs;
    AheadMeans(s, a, c);
    BeginsWider(s, a, c, h, i);
    ContentWider(s, a, c, i);
    TabsWider(s, a, c, i);
  }

  /** The token behind an empty line or a comment is the token behind what stands before. */
  lemma StepWider(s: bytes, number: bytes -> bool, a: Place, c: Place, tok: YToken, b: Place)
    requires a.levels != [] && c.levels == a.levels && Ahead(s, a, c) && TokenStep(s, number, c, tok, b)
    ensures TokenStep(s, number, a, tok, b)
  {
    hide Ahead;
    hide ContentAt;
    hide InPlace;
    hide AtTheEnd;
    hide LineAt;
    hide TokenAt;
    hide OpenBody;
    hide IndentError;
    hide FlowAfter;
    AheadMeans(s, a, c);
    match tok.kind {
      case KEof => EndWider(s, a, c, b);
      case KIndent =>
        var i: nat :| IndentTo(s, c, i, b);
        LineWider(s, a, c, b.pos, i);
        assert IndentTo(s, a, i, b);
      case KDedent =>
        if AtTheEnd(s, c, b) {
          EndWider(s, a, c, b);
        } else {
          var i: nat :| DedentTo(s, c, i, b);
          LineWider(s, a, c, b.pos, i);
          assert DedentTo(s, a, i, b);
        }
      case KError =>
        if h: nat :| IndentError(s, c, h, tok, b) {
          ErrorWider(s, a, c, h, tok, b);
        } else {
          var i: nat :| OpenQuote(s, c, i, tok, b);
          PlaceWider(s, a, c, i);
          assert OpenQuote(s, a, i, tok, b);
        }
      case _ =>
        var i: nat :| ContentStep(s, number, c, i, tok, b);
        PlaceWider(s, a, c, i);
        assert ContentStep(s, number, a, i, tok, b);
    }
  }

  /** Behind a line end or a comment. */
  lemma LineAhead(s: bytes, a: Place, i: nat)
    requires Gap(s, a.pos, i) && i < |s| && EndsLine(s, i) && (a.flow == 0 ==> NoTabs(s, a.pos, a.start, i))
    ensures Ahead(s, a, a.(pos := LineBehind(s, i), start := true)) && LineBehind(s, i) <= |s|
  {
    hide Gap;
    hide LineStop;
    hide AfterBreak;
    hide Skipped;
    var q := LineBehind(s, i);
    StopForms(s, i);
    BreakForms(s, i);
    GapForward(s, a.pos, i);
    if s[i] == 35 {
      CommentGap(s, i, q);
    } else {
      EndsGap(s, i, q);
    }
    GapJoin(s, a.pos, i, q);
    if a.flow == 0 {
      TabsBehind(s, a.pos, a.start, i, q);
    }
  }

  lemma TabsBehind(s: bytes, p: nat, start: bool, i: nat, q: nat)
    requires NoTabs(s, p, start, i) && p <= i && i < |s| && i < q <= |s|
    requires (s[i] == 35 && NoLineEnd(s, i, q)) || (LineEnd(s[i]) && OneBreak(s, i, q))
    ensures NoTabs(s, p, start, q)
  {
    forall h: nat, k: nat | k < q ensures !TabLed(s, p, start, h, k) {
      if i <= k {
        assert h <= i < k && AllSpaces(s, h, k) ==> s[i] == 32;
        assert i < h <= k && s[i] == 35 ==> !LineEnd(s[h - 1]);
      }
    }
  }

  lemma CommentGap(s: bytes, i: nat, q: nat)
    requires i <= q <= |s| && NoLineEnd(s, i, q) && (i < q ==> s[i] == 35)
    ensures Gap(s, i, q)
  {
    forall k: nat | i <= k < q ensures Skipped(s, i, k) {
      assert CommentFrom(s, i, i, k);
    }
  }

  lemma EndsGap(s: bytes, i: nat, q: nat)
    requires i < |s| && LineEnd(s[i]) && OneBreak(s, i, q)
    ensures Gap(s, i, q) && i < q && LineEnd(s[q - 1])
  {
    hide Commented;
    BreakEnds(s, i, q);
  }

  /** Every step of the lexer is a token of the text. */
  lemma {:induction false} StepReads(s: bytes, number: bytes -> bool, st: LState, a: Place) returns (b: Place)
    requires Matches(s, st, a)
    ensures a.levels != [] && st.levels != []
    ensures var r := Step(s, number, st); TokenStep(s, number, a, r.0, b) && (r.0.kind != KEof ==> Matches(s, r.1, b))
    decreases Left(s, st)
  {
    hide *;
    MatchParts(s, st, a);
    StepForms(s, number, st);
    if st.pending > 0 {
      b := OwedStep(s, number, st, a);
    } else {
      var r := LineStep(s, st);
      if r.0.Some? {
        LineSome(s, st);
        b := IndentForms(s, number, st, a);
      } else {
        SettleForms(s, st, a);
        var at := r.1.(pos := BlankEnd(s, r.1.pos));
        if at.pos >= |s| {
          b := EndForms(s, number, a, at, st);
        } else if EndsLine(s, at.pos) {
          LineAhead(s, a, at.pos);
          var q := LineBehind(s, at.pos);
          var c := a.(pos := q, start := true);
          var next := at.(pos := q, lineStart := true);
          NextMatches(s, st, a, next, c);
          LeftLess(s, st, a, at.pos, next);
          b := StepReads(s, number, next, c);
          StepWider(s, number, a, c, Step(s, number, next).0, b);
        } else {
          b := ContentReads(s, number, a, at);
        }
      }
    }
  }

  lemma MatchParts(s: bytes, st: LState, a: Place)
    requires Matches(s, st, a)
    ensures a.levels != [] && st.levels != [] && Rising(a.levels) && |a.levels| <= 64 && a.flow == st.flow && a.pos == st.pos
    ensures st.pending == 0 ==> a.levels == st.levels
  {
    hide Rising;
    hide LineFits;
  }

  lemma StepForms(s: bytes, number: bytes -> bool, st: LState)
    requires st.levels != []
    ensures st.pending > 0 ==> Step(s, number, st) == (VIRTUAL_DEDENT, st.(pending := st.pending - 1))
    ensures st.pending == 0 && LineStep(s, st).0.Some? ==> Step(s, number, st) == (LineStep(s, st).0.value, LineStep(s, st).1)
    ensures st.pending == 0 && LineStep(s, st).0.None? && LineStep(s, st).1.levels != [] ==>
              var r := LineStep(s, st);
              var at := r.1.(pos := BlankEnd(s, r.1.pos));
              Step(s, number, st)
              == if at.pos >= |s| then
                   (if |at.levels| > 1 then (VIRTUAL_DEDENT, at.(levels := at.levels[..1], pending := |at.levels| - 2))
                    else (YToken(KEof, 0, 0), at))
                 else if EndsLine(s, at.pos) then Step(s, number, at.(pos := LineBehind(s, at.pos), lineStart := true))
                 else Content(s, number, at)
  {
    hide LineStep;
    hide BlankEnd;
    hide EndsLine;
    hide LineBehind;
    hide Content;
    hide Left;
  }

  lemma LineSome(s: bytes, st: LState)
    requires st.levels != [] && LineStep(s, st).0.Some?
    ensures st.lineStart && st.flow == 0 && LineStep(s, st) == IndentStep(s, st.(lineStart := false))
  {
    hide IndentStep;
    hide FlowStart;
  }

  lemma NextMatches(s: bytes, st: LState, a: Place, next: LState, c: Place)
    requires Matches(s, st, a) && st.pending == 0 && next.lineStart && next.pending == 0 && next.levels == st.levels && next.flow == st.flow
    requires c == a.(pos := next.pos, start := true) && next.pos <= |s|
    ensures Matches(s, next, c)
  {
    hide Rising;
    hide LineFits;
  }

  lemma LeftLess(s: bytes, st: LState, a: Place, i: nat, next: LState)
    requires a.pos == st.pos && Gap(s, a.pos, i) && i < |s| && i < next.pos
    ensures Left(s, next) < Left(s, st)
  {
    hide Skipped;
  }

  lemma {:induction false} StreamReadsFrom(s: bytes, number: bytes -> bool, st: LState, a: Place)
    requires LevelsOk(st.levels) && Matches(s, st, a)
    ensures Reads(s, number, a, Stream(s, number, st))
    decreases Left(s, st), st.lineStart, Open(st)
  {
    hide Reads;
    hide LevelsOk;
    hide Matches;
    hide Step;
    hide Stream;
    hide TokenStep;
    hide Nearer;
    hide Left;
    StreamForms(s, number, st);
    StepKeeps(s, number, st);
    var b := StepReads(s, number, st, a);
    var r := Step(s, number, st);
    if r.0.kind != KEof {
      Descends(s, st, r.1);
      StreamReadsFrom(s, number, r.1, b);
      ReadsCons(s, number, a, r.0, b, Stream(s, number, r.1));
    } else {
      ReadsEnd(s, number, a, r.0, b);
    }
  }

  lemma ReadsCons(s: bytes, number: bytes -> bool, a: Place, tok: YToken, b: Place, rest: seq<YToken>)
    requires a.levels != [] && TokenStep(s, number, a, tok, b) && tok.kind != KEof && Reads(s, number, b, rest)
    ensures Reads(s, number, a, [tok] + rest)
  {
    hide TokenStep;
    assert ([tok] + rest)[1..] == rest && ([tok] + rest)[0] == tok;
  }

  lemma ReadsEnd(s: bytes, number: bytes -> bool, a: Place, tok: YToken, b: Place)
    requires a.levels != [] && TokenStep(s, number, a, tok, b) && tok.kind == KEof
    ensures Reads(s, number, a, [tok])
  {
    hide TokenStep;
    assert [tok][0] == tok;
  }

  /** The stream of a text says what the text says. */
  lemma StreamReads(s: bytes, number: bytes -> bool)
    ensures LevelsOk(Start(s).levels) && Reads(s, number, TextStart(s), Stream(s, number, Start(s)))
  {
    hide Reads;
    hide Stream;
    StreamReadsFrom(s, number, Start(s), TextStart(s));
  }
}
