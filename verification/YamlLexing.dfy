/** The indentation lexer (src/parser/yaml_lexer.c): a cursor, a stack of indentation levels
    and the virtual tokens it owes, proved against the token stream of YamlTokens. Line and
    column numbers and the new-line flag of tokens only serve messages and the parser, and are
    left out. */
module YamlLexing {
  import opened Bytes
  import opened YamlTokens
  import YamlText
  import YamlUnique

  class YamlLexer {
    const source: bytes
    /** What `strtod` reads whole. */
    const isNumber: bytes -> bool
    var pos: nat
    const stack: array<int>
    var top: nat
    var pending: nat
    var lineStart: bool
    var flowDepth: nat

    ghost predicate Sized()
      reads this
    {
      stack.Length == MAX_YAML_DEPTH && top < MAX_YAML_DEPTH
    }

    ghost predicate Valid()
      reads this, stack
    {
      Sized() && LevelsOk(stack[..top + 1])
    }

    ghost function State(): LState
      requires Sized()
      reads this, stack
    {
      LState(pos, stack[..top + 1], pending, lineStart, flowDepth)
    }

    /** `yaml_lexer_init`. */
    constructor (s: bytes, number: bytes -> bool)
      ensures Valid() && source == s && isNumber == number && fresh(stack) && State() == Start(s)
    {
      source, isNumber := s, number;
      pos := if |s| >= 3 && s[0] == 0xEF && s[1] == 0xBB && s[2] == 0xBF then 3 else 0;
      stack := new int[MAX_YAML_DEPTH](_ => 0);
      top, pending, lineStart, flowDepth := 0, 0, true, 0;
      new;
      assert stack[..1] == [0];
    }

    // -------------------------------------------------------------- lines

    /** `skip_spaces_on_line`. */
    method SkipBlanks()
      modifies this`pos
      ensures pos == BlankEnd(source, old(pos))
    {
      while pos < |source| && IsBlank(source[pos])
        invariant BlankEnd(source, pos) == BlankEnd(source, old(pos))
        decreases |source| - pos
      {
        pos := pos + 1;
      }
    }

    /** To the end of the line, not over it. */
    method SkipLine()
      modifies this`pos
      ensures pos == LineStop(source, old(pos))
    {
      while pos < |source| && !IsNewline(source[pos])
        invariant LineStop(source, pos) == LineStop(source, old(pos))
        decreases |source| - pos
      {
        pos := pos + 1;
      }
    }

    /** Over one line end, CR LF counting as one. */
    method SkipNewline()
      modifies this`pos
      ensures pos == AfterBreak(source, old(pos))
    {
      if pos < |source| && IsNewline(source[pos]) {
        var nl := source[pos];
        pos := pos + 1;
        if nl == 13 && pos < |source| && source[pos] == 10 {
          pos := pos + 1;
        }
      }
    }

    method SkipToNext()
      modifies this`pos
      ensures pos == NextLine(source, old(pos))
    {
      SkipLine();
      SkipNewline();
    }

    /** Leading spaces of the line at the cursor; `empty` if nothing or a comment follows. */
    method MeasureLine() returns (indent: nat, empty: bool)
      modifies this`pos
      ensures indent == Spaces(source, old(pos)) && pos == old(pos) + indent
      ensures empty <==> IsEmptyLine(source, old(pos))
    {
      indent := 0;
      while pos < |source| && source[pos] == 32
        invariant pos == old(pos) + indent && Spaces(source, old(pos)) == indent + Spaces(source, pos)
        decreases |source| - pos
      {
        indent := indent + 1;
        pos := pos + 1;
      }
      empty := pos >= |source| || IsNewline(source[pos]) || source[pos] == 35;
    }

    // -------------------------------------------------------------- scalars

    /** `parse_quoted_string`. */
    method ParseQuoted(quote: byte) returns (tok: YToken)
      requires pos < |source|
      modifies this`pos
      ensures match QuoteEnd(source, old(pos) + 1, quote)
              case Some(e) => tok == YToken(KString, old(pos) + 1, e - (old(pos) + 1)) && pos == e + 1
              case None => tok == YToken(KError, old(pos) + 1, |source| - (old(pos) + 1)) && pos == OpenEnd(source, old(pos) + 1, quote)
    {
      pos := pos + 1;
      var start := pos;
      while pos < |source|
        invariant start == old(pos) + 1 <= pos && start <= |source|
        invariant QuoteEnd(source, pos, quote) == QuoteEnd(source, start, quote)
        invariant QuoteEnd(source, start, quote).None? ==> OpenEnd(source, pos, quote) == OpenEnd(source, start, quote)
        decreases |source| - pos
      {
        var c := source[pos];
        if c == quote {
          if quote == 39 && pos + 1 < |source| && source[pos + 1] == 39 {
            pos := pos + 2;
            continue;
          }
          pos := pos + 1;
          return YToken(KString, start, pos - 1 - start);
        }
        if c == 92 && quote == 34 {
          pos := pos + 1;
        }
        pos := pos + 1;
      }
      tok := YToken(KError, start, |source| - start);
    }

    /** `parse_unquoted_scalar`. */
    method ParseUnquoted() returns (tok: YToken)
      requires pos < |source| && !ScalarStops(source, pos, flowDepth)
      modifies this`pos
      ensures pos == ScalarEnd(source, old(pos) + 1, flowDepth)
      ensures var end := Trimmed(source, old(pos), pos);
              tok == YToken(ScalarKind(isNumber, source[old(pos)..end]), old(pos), end - old(pos))
    {
      var start := pos;
      while pos < |source| && !ScalarStops(source, pos, flowDepth)
        invariant start <= pos <= |source|
        invariant ScalarEnd(source, pos, flowDepth) == ScalarEnd(source, start, flowDepth)
        decreases |source| - pos
      {
        pos := pos + 1;
      }
      var end := pos;
      while end > start && IsBlank(source[end - 1])
        invariant start <= end <= pos && Trimmed(source, start, end) == Trimmed(source, start, pos)
      {
        end := end - 1;
      }
      var text := source[start..end];
      tok := YToken(KString, start, end - start);
      if text == TRUE_WORD {
        tok := tok.(kind := KTrue);
      } else if text == FALSE_WORD {
        tok := tok.(kind := KFalse);
      } else if text == NULL_WORD {
        tok := tok.(kind := KNull);
      } else if |text| < 64 && isNumber(text) {
        tok := tok.(kind := KNumber);
      }
    }

    /** The header line of a block scalar. */
    method SkipHeader()
      requires pos < |source|
      modifies this`pos
      ensures pos == HeaderEnd(source, old(pos))
    {
      pos := pos + 1;
      while pos < |source| && (source[pos] == 43 || source[pos] == 45 || 48 <= source[pos] <= 57)
        invariant MarksEnd(source, pos) == MarksEnd(source, old(pos) + 1)
        decreases |source| - pos
      {
        pos := pos + 1;
      }
      SkipBlanks();
      if pos < |source| && source[pos] == 35 {
        SkipLine();
      }
      SkipNewline();
    }

    /** The first content line of a block scalar: `None` at the end of the input. */
    method FirstContent() returns (line: Option<nat>, indent: nat)
      requires pos <= |source|
      modifies this`pos
      ensures var q := ContentLine(source, old(pos));
              if q >= |source| then line == None && pos == q
              else line == Some(q) && indent == Spaces(source, q) && pos == q + indent
    {
      hide Spaces, IsEmptyLine, NextLine;
      while pos < |source|
        invariant pos <= |source| && ContentLine(source, pos) == ContentLine(source, old(pos))
        decreases |source| - pos
      {
        var linePos := pos;
        var empty;
        indent, empty := MeasureLine();
        if !empty {
          return Some(linePos), indent;
        }
        SkipToNext();
      }
      return None, 0;
    }

    /** The further lines of a block scalar indented like this. */
    method FurtherLines(indent: nat)
      requires pos <= |source|
      modifies this`pos
      ensures pos == BlockEnd(source, old(pos), indent)
    {
      hide Spaces, IsEmptyLine, NextLine;
      while pos < |source|
        invariant pos <= |source| && BlockEnd(source, pos, indent) == BlockEnd(source, old(pos), indent)
        decreases |source| - pos
      {
        var linePos := pos;
        var lineIndent, empty := MeasureLine();
        if empty || lineIndent >= indent {
          SkipToNext();
        } else {
          pos := linePos;
          return;
        }
      }
    }

    /** `parse_block_scalar`: the lines indented like the first one, which must be indented
        deeper than the current level. */
    method ParseBlock() returns (tok: YToken)
      requires Valid() && pos < |source|
      modifies this`pos, this`lineStart
      ensures (tok, pos) == Block(source, old(pos), stack[top]) && lineStart
    {
      hide LevelsOk, Spaces, IsEmptyLine, NextLine, HeaderEnd, ContentLine, BlockEnd;
      SkipHeader();
      lineStart := true;
      var line, indent := FirstContent();
      if line.None? {
        return YToken(KString, |source|, 0);
      }
      if indent <= stack[top] {
        pos := line.value;
        return YToken(KString, pos, 0);
      }
      var start := pos;
      SkipToNext();
      FurtherLines(indent);
      tok := YToken(KString, start, pos - start);
    }

    // -------------------------------------------------------------- line starts

    /** Line starts inside flow brackets: blank and comment lines are passed over. */
    method FlowLines()
      modifies this`pos
      ensures pos == FlowStart(source, old(pos))
    {
      while pos < |source|
        invariant FlowStart(source, pos) == FlowStart(source, old(pos))
        decreases |source| - pos
      {
        SkipBlanks();
        if pos >= |source| {
          break;
        }
        if !(IsNewline(source[pos]) || source[pos] == 35) {
          break;
        }
        SkipToNext();
      }
    }

    /** The level with this indentation, or -1. */
    method MatchLevel(indent: nat) returns (k: int)
      requires Sized()
      ensures k == LevelOf(stack[..top + 1], indent)
    {
      var i := 0;
      while i <= top
        invariant 0 <= i <= top + 1
        invariant forall j :: 0 <= j < i ==> stack[j] != indent
      {
        if stack[i] == indent {
          return i;
        }
        i := i + 1;
      }
      k := -1;
    }

    /** To the indentation's end on the first line that is not empty. */
    method FindLine() returns (line: nat, indent: nat)
      modifies this`pos
      ensures line == FirstLine(source, old(pos)) && indent == Spaces(source, line) && pos == line + indent
    {
      hide Spaces, NextLine;
      while true
        invariant FirstLine(source, pos) == FirstLine(source, old(pos))
        decreases |source| - pos
      {
        line := pos;
        var empty;
        indent, empty := MeasureLine();
        if pos >= |source| || !empty {
          return;
        }
        SkipToNext();
      }
    }

    method OpenLevel(indent: nat)
      requires Valid() && top + 1 < MAX_YAML_DEPTH && indent > stack[top]
      modifies this`top, stack
      ensures Valid() && State() == old(State()).(levels := old(State()).levels + [indent])
    {
      hide LevelsOk;
      LevelsPush(stack[..top + 1], indent);
      stack[top + 1] := indent;
      top := top + 1;
      assert stack[..top + 1] == old(stack[..top + 1]) + [indent];
    }

    /** All levels above `k` are closed, one of them by the token now due. */
    method CloseTo(k: nat)
      requires Valid() && k < top
      modifies this`top, this`pending
      ensures Valid()
      ensures State() == old(State()).(levels := old(State()).levels[..k + 1], pending := old(top) - k - 1)
    {
      hide LevelsOk;
      LevelsPrefix(stack[..top + 1], k + 1);
      assert stack[..k + 1] == stack[..top + 1][..k + 1];
      pending := top - k - 1;
      top := k;
    }

    /** The first content line from the cursor on: it is indented like the current level, or
        a virtual token or an error is due. */
    method IndentLines() returns (r: Option<YToken>)
      requires Valid() && pending == 0
      modifies this`pos, this`top, this`pending, stack
      ensures Valid() && (r, State()) == IndentStep(source, old(State()))
    {
      hide LevelsOk, FirstLine, Spaces, IsEmptyLine, NextLine, LevelOf;
      ghost var before := State();
      var line, indent := FindLine();
      if pos >= |source| {
        return None;
      }
      if source[pos] == 9 {
        return Some(YToken(KError, pos, 1));
      }
      if indent > stack[top] {
        if top + 1 >= MAX_YAML_DEPTH {
          return Some(YToken(KError, 0, 0));
        }
        pos := line;
        OpenLevel(indent);
        return Some(VIRTUAL_INDENT);
      }
      if indent < stack[top] {
        LevelBelow(before.levels, indent);
        var k := MatchLevel(indent);
        if k == -1 {
          return Some(YToken(KError, pos, 1));
        }
        pos := line;
        CloseTo(k);
        return Some(VIRTUAL_DEDENT);
      }
      r := None;
    }

    /** Indentation is looked at once per line, and only outside flow brackets. */
    method StartLine() returns (r: Option<YToken>)
      requires Valid() && pending == 0 && lineStart
      modifies this, stack
      ensures Valid() && (r, State()) == LineStep(source, old(State()))
    {
      hide LevelsOk, FlowStart, IndentStep;
      lineStart := false;
      r := None;
      if flowDepth > 0 {
        FlowLines();
      } else {
        r := IndentLines();
      }
    }

    // -------------------------------------------------------------- tokens

    /** Bullets, brackets and separators, which take one byte each. */
    method NextMark() returns (tok: Option<YToken>)
      requires pos < |source|
      modifies this`pos, this`flowDepth
      ensures match MarkKind(source, old(pos))
              case Some(k) => tok == Some(YToken(k, old(pos), 1)) && pos == old(pos) + 1 && flowDepth == FlowBehind(k, old(flowDepth))
              case None => tok == None && pos == old(pos) && flowDepth == old(flowDepth)
    {
      hide Breaks;
      var kind := KComma;
      var c := source[pos];
      if c == 45 && Breaks(source, pos + 1) {
        kind := KBullet;
      } else if c == 123 {
        kind, flowDepth := KBraceOpen, flowDepth + 1;
      } else if c == 125 {
        kind := KBraceClose;
        if flowDepth > 0 {
          flowDepth := flowDepth - 1;
        }
      } else if c == 91 {
        kind, flowDepth := KBracketOpen, flowDepth + 1;
      } else if c == 93 {
        kind := KBracketClose;
        if flowDepth > 0 {
          flowDepth := flowDepth - 1;
        }
      } else if c == 58 && Breaks(source, pos + 1) {
        kind := KColon;
      } else if c != 44 {
        return None;
      }
      tok := Some(YToken(kind, pos, 1));
      pos := pos + 1;
    }

    /** Quoted, block and plain scalars. */
    method NextScalar() returns (tok: YToken)
      requires Valid() && pos < |source| && MarkKind(source, pos).None? && !EndsLine(source, pos)
      modifies this`pos, this`lineStart
      ensures Valid() && (tok, State()) == Scalar(source, isNumber, old(State()))
    {
      hide LevelsOk, Breaks, IsNewline, MarkKind, Block, QuoteEnd, OpenEnd, ScalarEnd, ScalarKind, Trimmed;
      var c := source[pos];
      if c == 34 || c == 39 {
        tok := ParseQuoted(c);
      } else if c == 124 || c == 62 {
        tok := ParseBlock();
      } else {
        tok := ParseUnquoted();
      }
    }

    /** Everything but virtual tokens, comments and line ends. */
    method NextContent() returns (tok: YToken)
      requires Valid() && pos < |source| && !EndsLine(source, pos)
      modifies this`pos, this`flowDepth, this`lineStart
      ensures Valid() && (tok, State()) == Content(source, isNumber, old(State()))
    {
      hide LevelsOk, MarkKind, FlowBehind, Scalar;
      var mark := NextMark();
      if mark.Some? {
        return mark.value;
      }
      tok := NextScalar();
    }

    /** At the end of the input all open levels are closed. */
    method AtEnd() returns (tok: YToken)
      requires Valid() && pending == 0
      modifies this`top, this`pending
      ensures Valid()
      ensures (tok, State()) == if old(top) > 0 then (VIRTUAL_DEDENT, old(State()).(levels := old(State()).levels[..1], pending := old(top) - 1))
                                else (YToken(KEof, 0, 0), old(State()))
    {
      if top > 0 {
        CloseTo(0);
        return VIRTUAL_DEDENT;
      }
      tok := YToken(KEof, 0, 0);
    }

    /** To the end of a comment, or over a line end. */
    method EndLine()
      requires Sized() && pos < |source| && EndsLine(source, pos)
      modifies this`pos, this`lineStart
      ensures State() == old(State()).(pos := LineBehind(source, old(pos)), lineStart := true)
    {
      if source[pos] == 35 {
        SkipLine();
      } else {
        SkipNewline();
      }
      lineStart := true;
    }

    /** `yaml_lexer_next_token_internal`: the token and the state that `Step` gives. */
    method Next() returns (tok: YToken)
      requires Valid()
      modifies this, stack
      ensures Valid() && (tok, State()) == Step(source, isNumber, old(State()))
      decreases Left(source, State())
    {
      hide LevelsOk, LineStep, Content, BlankEnd, EndsLine, LineBehind;
      ghost var was := State();
      if pending > 0 {
        pending := pending - 1;
        return VIRTUAL_DEDENT;
      }
      LineKeeps(source, was);
      if lineStart {
        var r := StartLine();
        if r.Some? {
          return r.value;
        }
      } else {
        LineStepNone(source, was);
      }
      AtBlank(source, State());
      SkipBlanks();
      if pos >= |source| {
        tok := AtEnd();
        return;
      }
      if EndsLine(source, pos) {
        EndLine();
        tok := Next();
        return;
      }
      tok := NextContent();
    }
  }

  /** The whole token stream, in order: the one that `Reads` allows for these bytes. */
  method Tokenize(source: bytes, number: bytes -> bool) returns (toks: seq<YToken>)
    ensures LevelsOk(Start(source).levels) && toks == Stream(source, number, Start(source))
    ensures forall ts: seq<YToken> :: YamlText.Reads(source, number, YamlText.TextStart(source), ts) <==> ts == toks
  {
    hide YamlText.Reads;
    hide LevelsOk, Step, Left, Nearer, Stream;
    var l := new YamlLexer(source, number);
    toks := [];
    ghost var whole := Stream(source, number, l.State());
    var done := false;
    while !done
      invariant l.Valid() && fresh(l) && fresh(l.stack) && l.source == source && l.isNumber == number
      invariant whole == if done then toks else toks + Stream(source, number, l.State())
      decreases !done, Left(source, l.State()), l.lineStart, Open(l.State())
    {
      ghost var st := l.State();
      StreamForms(source, number, st);
      StepKeeps(source, number, st);
      var tok := l.Next();
      toks := toks + [tok];
      done := tok.kind == KEof;
      if !done {
        Descends(source, st, l.State());
        OpenNotNegative(st);
      }
    }
    forall ts: seq<YToken> ensures YamlText.Reads(source, number, YamlText.TextStart(source), ts) <==> ts == toks {
      YamlUnique.StreamExact(source, number, ts);
    }
  }
}
