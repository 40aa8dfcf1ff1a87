/** What the indentation lexer yields (src/parser/yaml_lexer.c), as a function of its state:
    where lines, scalars and blocks end, when indentation tokens are due, and why every token
    stream ends balanced. */
module YamlTokens {
  import opened Bytes

  const MAX_YAML_DEPTH: nat := 64

  datatype Kind =
    | KError | KEof | KIndent | KDedent | KBullet
    | KBraceOpen | KBraceClose | KBracketOpen | KBracketClose | KComma | KColon
    | KTrue | KFalse | KNull | KNumber | KString

  /** A token and the slice of the source it covers. */
  datatype YToken = YToken(kind: Kind, start: nat, len: nat)

  const VIRTUAL_INDENT := YToken(KIndent, 0, 0)
  const VIRTUAL_DEDENT := YToken(KDedent, 0, 0)

  /** The open indentation levels, innermost last, and the DEDENTs still owed. */
  datatype LState = LState(pos: nat, levels: seq<int>, pending: nat, lineStart: bool, flow: nat)

  // ---------------------------------------------------------------- lines

  predicate IsNewline(c: byte) { c == 10 || c == 13 }

  predicate IsBlank(c: byte) { c == 32 || c == 9 }

  /** The byte at `i` ends what stands before it: a blank, a new line or the end. */
  predicate Breaks(s: bytes, i: nat) {
    i >= |s| || IsBlank(s[i]) || IsNewline(s[i])
  }

  /** How many spaces stand from `p` on. */
  function Spaces(s: bytes, p: nat): (n: nat)
    ensures p <= |s| ==> p + n <= |s|
    ensures p + n < |s| ==> s[p + n] != 32
    decreases |s| - p
  {
    if p < |s| && s[p] == 32 then 1 + Spaces(s, p + 1) else 0
  }

  function BlankEnd(s: bytes, p: nat): (q: nat)
    ensures p <= q && (p <= |s| ==> q <= |s|) && (q < |s| ==> !IsBlank(s[q]))
    decreases |s| - p
  {
    if p < |s| && IsBlank(s[p]) then BlankEnd(s, p + 1) else p
  }

  /** The first line end from `p` on. */
  function LineStop(s: bytes, p: nat): (q: nat)
    ensures p <= q && (p <= |s| ==> q <= |s|) && (q < |s| ==> IsNewline(s[q]))
    decreases |s| - p
  {
    if p < |s| && !IsNewline(s[p]) then LineStop(s, p + 1) else p
  }

  /** Behind a line end, CR LF counting as one. */
  function AfterBreak(s: bytes, p: nat): (q: nat)
    ensures p <= q && (p <= |s| ==> q <= |s|)
    ensures p < |s| && IsNewline(s[p]) ==> p < q
  {
    if p < |s| && IsNewline(s[p]) then (if s[p] == 13 && p + 1 < |s| && s[p + 1] == 10 then p + 2 else p + 1) else p
  }

  function NextLine(s: bytes, p: nat): (q: nat)
    ensures p <= q && (p <= |s| ==> q <= |s|) && (p < |s| ==> p < q)
  {
    AfterBreak(s, LineStop(s, p))
  }

  /** Only spaces, a comment or nothing stand on the line at `p`. */
  predicate IsEmptyLine(s: bytes, p: nat) {
    var q := p + Spaces(s, p);
    q >= |s| || IsNewline(s[q]) || s[q] == 35
  }

  /** The first line from `p` on that is not empty, or the line the input ends in. */
  function FirstLine(s: bytes, p: nat): (q: nat)
    ensures p <= q && (p <= |s| ==> q <= |s|)
    ensures q + Spaces(s, q) >= |s| || !IsEmptyLine(s, q)
    decreases |s| - p
  {
    if p + Spaces(s, p) < |s| && IsEmptyLine(s, p) then FirstLine(s, NextLine(s, p + Spaces(s, p))) else p
  }

  /** Inside flow brackets blank and comment lines are passed over. */
  function FlowStart(s: bytes, p: nat): (q: nat)
    ensures p <= q
    decreases |s| - p
  {
    var b := BlankEnd(s, p);
    if b < |s| && (IsNewline(s[b]) || s[b] == 35) then FlowStart(s, NextLine(s, b)) else b
  }

  // ---------------------------------------------------------------- scalars

  /** Where the closing quote is; a doubled single quote and an escaped byte do not close. */
  function QuoteEnd(s: bytes, i: nat, quote: byte): (e: Option<nat>)
    ensures e.Some? ==> i <= e.value < |s| && s[e.value] == quote
    decreases |s| - i
  {
    if i >= |s| then None
    else if s[i] == quote then
      (if quote == 39 && i + 1 < |s| && s[i + 1] == 39 then QuoteEnd(s, i + 2, quote) else Some(i))
    else if s[i] == 92 && quote == 34 then QuoteEnd(s, i + 2, quote)
    else QuoteEnd(s, i + 1, quote)
  }

  /** Where the cursor is when no closing quote was found: an escape at the very end steps
      over it. */
  function OpenEnd(s: bytes, i: nat, quote: byte): (e: nat)
    ensures i <= e && |s| <= e
    decreases |s| - i
  {
    if i >= |s| then i
    else if s[i] == quote && quote == 39 && i + 1 < |s| && s[i + 1] == 39 then OpenEnd(s, i + 2, quote)
    else if s[i] != quote && s[i] == 92 && quote == 34 then OpenEnd(s, i + 2, quote)
    else OpenEnd(s, i + 1, quote)
  }

  /** Whether a plain scalar ends before the byte at `i`. */
  predicate ScalarStops(s: bytes, i: nat, flow: nat)
    requires i < |s|
  {
    var c := s[i];
    || IsNewline(c) || c == 35
    || (flow > 0 && (c == 44 || c == 125 || c == 93))
    || (c == 58 && Breaks(s, i + 1))
  }

  function ScalarEnd(s: bytes, i: nat, flow: nat): (e: nat)
    ensures i <= e && (i <= |s| ==> e <= |s|) && (e < |s| ==> ScalarStops(s, e, flow))
    decreases |s| - i
  {
    if i < |s| && !ScalarStops(s, i, flow) then ScalarEnd(s, i + 1, flow) else i
  }

  /** The end without trailing blanks. */
  function Trimmed(s: bytes, start: nat, end: nat): (e: nat)
    requires start <= end <= |s|
    ensures start <= e <= end && (e > start ==> !IsBlank(s[e - 1]))
    ensures forall k :: e <= k < end ==> IsBlank(s[k])
    decreases end
  {
    if end > start && IsBlank(s[end - 1]) then Trimmed(s, start, end - 1) else end
  }


  /** What a plain scalar is; `number` says what `strtod` reads whole. */
  function ScalarKind(number: bytes -> bool, text: bytes): (k: Kind)
    ensures k in {KTrue, KFalse, KNull, KNumber, KString}
  {
    if text == TRUE_WORD then KTrue
    else if text == FALSE_WORD then KFalse
    else if text == NULL_WORD then KNull
    else if |text| < 64 && number(text) then KNumber
    else KString
  }

  // ---------------------------------------------------------------- block scalars

  function MarksEnd(s: bytes, p: nat): (q: nat)
    ensures p <= q && (p <= |s| ==> q <= |s|)
    decreases |s| - p
  {
    if p < |s| && (s[p] == 43 || s[p] == 45 || 48 <= s[p] <= 57) then MarksEnd(s, p + 1) else p
  }

  /** Behind the header line of the block scalar at `p`. */
  function HeaderEnd(s: bytes, p: nat): (q: nat)
    requires p < |s|
    ensures p < q <= |s|
  {
    var b := BlankEnd(s, MarksEnd(s, p + 1));
    AfterBreak(s, if b < |s| && s[b] == 35 then LineStop(s, b) else b)
  }

  /** Where the lines that are empty or indented at least like this end. */
  function BlockEnd(s: bytes, p: nat, indent: nat): (q: nat)
    ensures p <= q && (p <= |s| ==> q <= |s|)
    ensures q < |s| ==> !IsEmptyLine(s, q) && Spaces(s, q) < indent
    decreases |s| - p
  {
    if p < |s| && (IsEmptyLine(s, p) || Spaces(s, p) >= indent) then BlockEnd(s, NextLine(s, p + Spaces(s, p)), indent) else p
  }

  /** The first line from `p` on that is not empty, or the end of the input. */
  function ContentLine(s: bytes, p: nat): (q: nat)
    ensures p <= q && (p <= |s| ==> q <= |s|) && (q < |s| ==> !IsEmptyLine(s, q))
    decreases |s| - p
  {
    if p < |s| && IsEmptyLine(s, p) then ContentLine(s, NextLine(s, p + Spaces(s, p))) else p
  }

  /** A block scalar: the lines indented like its first one, which must be indented deeper
      than the level around it. */
  function Block(s: bytes, p: nat, parent: int): (r: (YToken, nat))
    requires p < |s|
    ensures p < r.1 <= |s| && r.0.kind == KString
  {
    var q := ContentLine(s, HeaderEnd(s, p));
    var n := Spaces(s, q);
    if q >= |s| then (YToken(KString, |s|, 0), q)
    else if n <= parent then (YToken(KString, q, 0), q)
    else
      var e := BlockEnd(s, NextLine(s, q + n), n);
      (YToken(KString, q + n, e - (q + n)), e)
  }

  // ---------------------------------------------------------------- one token

  /** The level with this indentation, or -1. */
  function LevelOf(levels: seq<int>, n: int): (k: int)
    ensures -1 <= k < |levels|
    ensures k >= 0 ==> levels[k] == n && forall j :: 0 <= j < k ==> levels[j] != n
    ensures k == -1 ==> n !in levels
  {
    if levels == [] then -1
    else
      var k := LevelOf(levels[..|levels| - 1], n);
      if k >= 0 then k else if levels[|levels| - 1] == n then |levels| - 1 else -1
  }

  /** The first content line is compared with the innermost level: `None` if they agree. */
  function IndentStep(s: bytes, st: LState): (Option<YToken>, LState)
    requires st.levels != []
  {
    var q := FirstLine(s, st.pos);
    var n := Spaces(s, q);
    var top := |st.levels| - 1;
    if q + n >= |s| then (None, st.(pos := q + n))
    else if s[q + n] == 9 then (Some(YToken(KError, q + n, 1)), st.(pos := q + n))
    else if n > st.levels[top] then
      (if top + 1 >= MAX_YAML_DEPTH then (Some(YToken(KError, 0, 0)), st.(pos := q + n))
       else (Some(VIRTUAL_INDENT), st.(pos := q, levels := st.levels + [n])))
    else if n < st.levels[top] then
      var k := LevelOf(st.levels, n);
      if k == -1 || k == top then (Some(YToken(KError, q + n, 1)), st.(pos := q + n))
      else (Some(VIRTUAL_DEDENT), st.(pos := q, levels := st.levels[..k + 1], pending := top - k - 1))
    else (None, st.(pos := q + n))
  }

  /** The kind of a one-byte token here, if it is one. */
  function MarkKind(s: bytes, p: nat): (k: Option<Kind>)
    requires p < |s|
    ensures k.Some? ==> k.value in {KBullet, KBraceOpen, KBraceClose, KBracketOpen, KBracketClose, KComma, KColon}
    ensures k.None? ==> s[p] != 44 && s[p] != 125 && s[p] != 93 && !(s[p] == 58 && Breaks(s, p + 1))
  {
    var c := s[p];
    if c == 45 && Breaks(s, p + 1) then Some(KBullet)
    else if c == 123 then Some(KBraceOpen)
    else if c == 125 then Some(KBraceClose)
    else if c == 91 then Some(KBracketOpen)
    else if c == 93 then Some(KBracketClose)
    else if c == 44 then Some(KComma)
    else if c == 58 && Breaks(s, p + 1) then Some(KColon)
    else None
  }

  /** How deep in flow brackets the lexer is behind such a token. */
  function FlowBehind(k: Kind, flow: nat): nat {
    if k == KBraceOpen || k == KBracketOpen then flow + 1
    else if (k == KBraceClose || k == KBracketClose) && flow > 0 then flow - 1
    else flow
  }

  /** A quoted, block or plain scalar. */
  function Scalar(s: bytes, number: bytes -> bool, st: LState): (r: (YToken, LState))
    requires st.pos < |s| && st.levels != []
    ensures r.1.pos > st.pos && r.1.levels == st.levels && r.1.pending == st.pending
    ensures r.0.kind in {KError, KTrue, KFalse, KNull, KNumber, KString}
  {
    var p := st.pos;
    var c := s[p];
    if c == 34 || c == 39 then
      (match QuoteEnd(s, p + 1, c)
       case Some(e) => (YToken(KString, p + 1, e - (p + 1)), st.(pos := e + 1))
       case None => (YToken(KError, p + 1, |s| - (p + 1)), st.(pos := OpenEnd(s, p + 1, c))))
    else if c == 124 || c == 62 then
      var b := Block(s, p, st.levels[|st.levels| - 1]);
      (b.0, st.(pos := b.1, lineStart := true))
    else
      var e := ScalarEnd(s, p + 1, st.flow);
      var t := Trimmed(s, p, e);
      (YToken(ScalarKind(number, s[p..t]), p, t - p), st.(pos := e))
  }

  /** Everything but virtual tokens, comments and line ends. */
  function Content(s: bytes, number: bytes -> bool, st: LState): (r: (YToken, LState))
    requires st.pos < |s| && st.levels != []
    ensures r.1.pos > st.pos && r.1.levels == st.levels && r.1.pending == st.pending
    ensures r.0.kind != KIndent && r.0.kind != KDedent && r.0.kind != KEof
  {
    match MarkKind(s, st.pos)
    case Some(k) => (YToken(k, st.pos, 1), st.(pos := st.pos + 1, flow := FlowBehind(k, st.flow)))
    case None => Scalar(s, number, st)
  }

  function Left(s: bytes, st: LState): nat {
    if st.pos < |s| then |s| - st.pos else 0
  }

  /** The state behind a line start, or the token due there. */
  function LineStep(s: bytes, st: LState): (r: (Option<YToken>, LState))
    requires st.levels != []
    ensures Left(s, r.1) <= Left(s, st)
  {
    if !st.lineStart then (None, st)
    else if st.flow > 0 then (None, st.(lineStart := false, pos := FlowStart(s, st.pos)))
    else IndentStep(s, st.(lineStart := false))
  }

  /** A comment or a line end stands here. */
  predicate EndsLine(s: bytes, p: nat)
    requires p < |s|
  {
    s[p] == 35 || IsNewline(s[p])
  }

  /** Behind a line end, or at the one behind a comment. */
  function LineBehind(s: bytes, p: nat): (q: nat)
    requires p < |s| && EndsLine(s, p)
    ensures p < q <= |s|
  {
    if s[p] == 35 then LineStop(s, p) else AfterBreak(s, p)
  }

  /** The next token and the state behind it. */
  function Step(s: bytes, number: bytes -> bool, st: LState): (YToken, LState)
    requires st.levels != []
    decreases Left(s, st)
  {
    if st.pending > 0 then (VIRTUAL_DEDENT, st.(pending := st.pending - 1))
    else
      var r := LineStep(s, st);
      if r.0.Some? || r.1.levels == [] then (if r.0.Some? then r.0.value else VIRTUAL_DEDENT, r.1)
      else
        var at := r.1.(pos := BlankEnd(s, r.1.pos));
        if at.pos >= |s| then
          (if |at.levels| > 1 then (VIRTUAL_DEDENT, at.(levels := at.levels[..1], pending := |at.levels| - 2))
           else (YToken(KEof, 0, 0), at))
        else if EndsLine(s, at.pos) then Step(s, number, at.(pos := LineBehind(s, at.pos), lineStart := true))
        else Content(s, number, at)
  }

  // ---------------------------------------------------------------- what every step keeps

  /** Strictly increasing levels from 0, fewer than 65. */
  ghost predicate LevelsOk(levels: seq<int>) {
    && 1 <= |levels| <= MAX_YAML_DEPTH && levels[0] == 0
    && forall i, j :: 0 <= i < j < |levels| ==> levels[i] < levels[j]
  }

  /** Levels opened and not yet closed by a token. */
  function Open(st: LState): int { |st.levels| - 1 + st.pending }

  function Delta(k: Kind): int {
    if k == KIndent then 1 else if k == KDedent then -1 else 0
  }

  lemma LevelsPrefix(levels: seq<int>, k: nat)
    requires LevelsOk(levels) && 1 <= k <= |levels|
    ensures LevelsOk(levels[..k])
  {
  }

  lemma LevelsPush(levels: seq<int>, n: int)
    requires LevelsOk(levels) && |levels| < MAX_YAML_DEPTH && n > levels[|levels| - 1]
    ensures LevelsOk(levels + [n])
  {
    var top := |levels| - 1;
    forall i | 0 <= i < |levels| ensures levels[i] < n {
      if i < top {
        assert levels[i] < levels[top];
      }
    }
  }

  /** An indentation below the innermost level is not that level's. */
  lemma LevelBelow(levels: seq<int>, n: int)
    requires levels != [] && n < levels[|levels| - 1]
    ensures LevelOf(levels, n) < |levels| - 1
  {
    hide LevelOf;
  }

  /** INDENT opens the level of the line it stands before; DEDENT closes levels down to that
      of the line, one now and the others owed. */
  lemma IndentKeeps(s: bytes, st: LState)
    requires LevelsOk(st.levels) && st.pending == 0
    ensures var r := IndentStep(s, st);
            && LevelsOk(r.1.levels) && r.1.lineStart == st.lineStart
            && Open(r.1) == Open(st) + (if r.0.Some? then Delta(r.0.value.kind) else 0)
            && (r.0.Some? ==> r.0.value.kind == KIndent || r.0.value.kind == KDedent || r.0.value.kind == KError)
            && (r.0.None? ==> r.1.levels == st.levels && r.1.pending == 0)
            && (r.0.Some? && r.0.value.kind != KError ==>
                  r.1.pos < |s| && r.1.levels[|r.1.levels| - 1] == Spaces(s, r.1.pos))
            && (r.0.None? && r.1.pos < |s| ==> st.levels[|st.levels| - 1] == Spaces(s, FirstLine(s, st.pos)))
  {
    hide LevelsOk;
    hide FirstLine;
    hide Spaces;
    hide LevelOf;
    LevelsBounds(st.levels);
    var q := FirstLine(s, st.pos);
    var n := Spaces(s, q);
    if n > st.levels[|st.levels| - 1] && |st.levels| < MAX_YAML_DEPTH {
      LevelsPush(st.levels, n);
    } else if n < st.levels[|st.levels| - 1] {
      LevelBelow(st.levels, n);
      if LevelOf(st.levels, n) >= 0 {
        LevelsPrefix(st.levels, LevelOf(st.levels, n) + 1);
      }
    }
  }

  lemma LevelsBounds(levels: seq<int>)
    requires LevelsOk(levels)
    ensures 1 <= |levels| <= MAX_YAML_DEPTH
  {
  }

  lemma LineKeeps(s: bytes, st: LState)
    requires LevelsOk(st.levels) && st.pending == 0
    ensures var r := LineStep(s, st);
            && LevelsOk(r.1.levels) && !r.1.lineStart
            && Open(r.1) == Open(st) + (if r.0.Some? then Delta(r.0.value.kind) else 0)
            && (r.0.Some? ==> st.lineStart && (r.0.value.kind == KIndent || r.0.value.kind == KDedent || r.0.value.kind == KError))
            && (r.0.None? ==> r.1.levels == st.levels && r.1.pending == 0)
  {
    hide LevelsOk;
    hide IndentStep;
    hide FlowStart;
    if st.lineStart && st.flow == 0 {
      IndentKeeps(s, st.(lineStart := false));
    }
  }

  lemma LineStepNone(s: bytes, st: LState)
    requires st.levels != [] && !st.lineStart
    ensures LineStep(s, st) == (None, st)
  {
  }

  /** A step towards the end: fewer bytes, or the line start dealt with, or a virtual token
      paid. */
  predicate Nearer(s: bytes, a: LState, b: LState) {
    || Left(s, b) < Left(s, a)
    || (Left(s, b) == Left(s, a) && a.lineStart && !b.lineStart)
    || (Left(s, b) == Left(s, a) && a.lineStart == b.lineStart && Open(b) < Open(a))
  }

  lemma AtBlank(s: bytes, st: LState)
    ensures Left(s, st.(pos := BlankEnd(s, st.pos))) <= Left(s, st)
  {
  }

  /** Every step keeps the levels strictly increasing, opens or closes exactly the level its
      token says, and gets nearer to the end unless it is at the end. */
  lemma {:induction false} StepKeeps(s: bytes, number: bytes -> bool, st: LState)
    requires LevelsOk(st.levels)
    ensures st.levels != []
    ensures var r := Step(s, number, st);
            && LevelsOk(r.1.levels)
            && Open(r.1) == Open(st) + Delta(r.0.kind)
            && (r.0.kind == KEof ==> Open(r.1) == 0 && r.1.pos >= |s|)
            && (r.0.kind != KEof ==> Nearer(s, st, r.1))
    decreases Left(s, st)
  {
    hide LevelsOk;
    hide LineStep;
    hide Content;
    hide BlankEnd;
    hide EndsLine;
    hide LineBehind;
    LevelsBounds(st.levels);
    if st.pending == 0 {
      var r := LineStep(s, st);
      LineKeeps(s, st);
      LevelsBounds(r.1.levels);
      AtBlank(s, r.1);
      if r.0.None? {
        var at := r.1.(pos := BlankEnd(s, r.1.pos));
        if at.pos >= |s| {
          LevelsPrefix(at.levels, 1);
        } else if EndsLine(s, at.pos) {
          StepKeeps(s, number, at.(pos := LineBehind(s, at.pos), lineStart := true));
        }
      }
    }
  }

  // ---------------------------------------------------------------- the whole stream

  /** All tokens from a state on, the final EOF included. */
  function Stream(s: bytes, number: bytes -> bool, st: LState): (toks: seq<YToken>)
    requires LevelsOk(st.levels)
    ensures toks != []
    decreases Left(s, st), st.lineStart, Open(st)
  {
    StepKeeps(s, number, st);
    var r := Step(s, number, st);
    if r.0.kind == KEof then [r.0] else [r.0] + Stream(s, number, r.1)
  }

  function Start(s: bytes): LState {
    LState(if |s| >= 3 && s[0] == 0xEF && s[1] == 0xBB && s[2] == 0xBF then 3 else 0, [0], 0, true, 0)
  }

  /** INDENTs less DEDENTs. */
  function Balance(toks: seq<YToken>): int {
    if toks == [] then 0 else Delta(toks[0].kind) + Balance(toks[1..])
  }

  lemma OpenNotNegative(st: LState)
    requires LevelsOk(st.levels)
    ensures Open(st) >= 0
  {
  }

  lemma {:induction false} StreamEnds(s: bytes, number: bytes -> bool, st: LState)
    requires LevelsOk(st.levels)
    ensures var toks := Stream(s, number, st);
            && toks[|toks| - 1].kind == KEof
            && (forall i :: 0 <= i < |toks| - 1 ==> toks[i].kind != KEof)
            && Balance(toks) == 0 - Open(st)
    decreases Left(s, st), st.lineStart, Open(st)
  {
    hide LevelsOk;
    hide Step;
    hide Nearer;
    hide Left;
    StreamForms(s, number, st);
    StepKeeps(s, number, st);
    var r := Step(s, number, st);
    BalanceNone();
    if r.0.kind != KEof {
      Descends(s, st, r.1);
      StreamEnds(s, number, r.1);
      var rest := Stream(s, number, r.1);
      BalanceCons(r.0, rest);
    } else {
      BalanceCons(r.0, []);
    }
  }

  lemma StreamForms(s: bytes, number: bytes -> bool, st: LState)
    requires LevelsOk(st.levels)
    ensures st.levels != []
    ensures var r := Step(s, number, st);
            && LevelsOk(r.1.levels)
            && Stream(s, number, st) == if r.0.kind == KEof then [r.0] else [r.0] + Stream(s, number, r.1)
  {
    hide LevelsOk;
    hide Step;
    hide Nearer;
    LevelsBounds(st.levels);
    StepKeeps(s, number, st);
  }

  lemma Descends(s: bytes, a: LState, b: LState)
    requires Nearer(s, a, b)
    ensures Left(s, b) < Left(s, a) || (Left(s, b) == Left(s, a) && a.lineStart && !b.lineStart)
            || (Left(s, b) == Left(s, a) && a.lineStart == b.lineStart && Open(b) < Open(a))
  {
  }

  lemma BalanceNone()
    ensures Balance([]) == 0
  {
  }

  lemma BalanceCons(t: YToken, rest: seq<YToken>)
    ensures Balance([t] + rest) == Delta(t.kind) + Balance(rest)
  {
    assert ([t] + rest)[1..] == rest;
  }

  /** On the way there are never more DEDENTs than INDENTs and open levels. */
  lemma {:induction false} PrefixBalanced(s: bytes, number: bytes -> bool, st: LState, i: nat)
    requires LevelsOk(st.levels) && i <= |Stream(s, number, st)|
    ensures Open(st) + Balance(Stream(s, number, st)[..i]) >= 0
    decreases i
  {
    hide LevelsOk;
    hide Step;
    hide Nearer;
    hide Left;
    var toks := Stream(s, number, st);
    OpenNotNegative(st);
    BalanceNone();
    if i > 0 {
      StreamForms(s, number, st);
      StepKeeps(s, number, st);
      var r := Step(s, number, st);
      if r.0.kind == KEof {
        assert toks[..i] == [r.0] + [];
        BalanceCons(r.0, []);
      } else {
        PrefixBalanced(s, number, r.1, i - 1);
        assert toks[..i] == [r.0] + Stream(s, number, r.1)[..i - 1];
        BalanceCons(r.0, Stream(s, number, r.1)[..i - 1]);
      }
    }
  }

  /** Every text has a token stream that ends with EOF, with as many DEDENTs as INDENTs and
      never more of them on the way. */
  lemma StreamBalanced(s: bytes, number: bytes -> bool)
    ensures LevelsOk(Start(s).levels)
    ensures var toks := Stream(s, number, Start(s));
            && toks[|toks| - 1].kind == KEof && (forall i :: 0 <= i < |toks| - 1 ==> toks[i].kind != KEof)
            && Balance(toks) == 0
            && forall i :: 0 <= i <= |toks| ==> Balance(toks[..i]) >= 0
  {
    hide Stream;
    hide Balance;
    StreamEnds(s, number, Start(s));
    var toks := Stream(s, number, Start(s));
    forall i | 0 <= i <= |toks| ensures Balance(toks[..i]) >= 0 {
      PrefixBalanced(s, number, Start(s), i);
    }
  }
}
