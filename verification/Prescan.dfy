/** The byte-level scan that sizes the key set and the key-tree pool before parsing
    (src/parser/prescan.c), and why the sizes are enough (src/parser/parser.c). */
module Prescan {
  import opened Bytes
  import opened Ast
  import opened Unescape
  import opened Lexing
  import opened Grammar
  import opened KeyTree
  import opened KeySet
  import opened PowersOfTwo
  import opened Building
  import opened PoolShape
  import opened PoolBuilt
  import opened KeyOrder
  import opened Parsing
  import opened Parser
  import opened Frontend

  /** `JsonEstimate` with the two flags of the loop. */
  datatype Scan = Scan(inString: bool, escape: bool, stringBytes: nat, values: nat, tally: Tally)

  /** The counters that turn out to be exact. */
  datatype Tally = Tally(objects: nat, arrays: nat, depth: nat, maxDepth: nat)

  const NOTHING := Tally(0, 0, 0, 0)

  function Deeper(a: Tally): Tally {
    var d := a.depth + 1;
    a.(depth := d, maxDepth := if d > a.maxDepth then d else a.maxDepth)
  }

  function Shallower(a: Tally): Tally {
    if a.depth > 0 then a.(depth := a.depth - 1) else a
  }

  /** One pass of the loop. */
  function Step(st: Scan, c: byte): Scan {
    if st.inString then
      (if st.escape then st.(escape := false, stringBytes := st.stringBytes + 1)
       else if c == BACKSLASH then st.(escape := true)
       else if c == QUOTE then st.(inString := false, values := st.values + 1)
       else st.(stringBytes := st.stringBytes + 1))
    else if c == QUOTE then st.(inString := true)
    else if c == 123 then st.(tally := Deeper(st.tally.(objects := st.tally.objects + 1)))
    else if c == 91 then st.(tally := Deeper(st.tally.(arrays := st.tally.arrays + 1)))
    else if c == 125 || c == 93 then st.(tally := Shallower(st.tally))
    else if c == 116 || c == 102 || c == 110 || c == 45 || IsDigit(c) then st.(values := st.values + 1)
    else st
  }

  /** The state after the bytes from `i` up to `j`. */
  function Run(s: bytes, i: nat, j: nat, st: Scan): Scan
    requires i <= j <= |s|
    decreases j - i
  {
    if i == j then st else Run(s, i + 1, j, Step(st, s[i]))
  }

  lemma {:induction false} RunSplit(s: bytes, i: nat, k: nat, j: nat, st: Scan)
    requires i <= k <= j <= |s|
    ensures Run(s, i, j, st) == Run(s, k, j, Run(s, i, k, st))
    decreases k - i
  {
    hide Step;
    if i < k {
      RunSplit(s, i + 1, k, j, Step(st, s[i]));
    }
  }

  lemma RunOne(s: bytes, i: nat, st: Scan)
    requires i < |s|
    ensures Run(s, i, i + 1, st) == Step(st, s[i])
  {
    hide Step;
    assert Run(s, i + 1, i + 1, Step(st, s[i])) == Step(st, s[i]);
  }

  const START := Scan(false, false, 0, 0, NOTHING)

  const MAX_INPUT: nat := 0xFFFF_FFFF

  /** `prescan`; `None` is the exception for input too long or a string left open. */
  method Estimate(src: bytes) returns (e: Option<Scan>)
    ensures e == if |src| > MAX_INPUT || Run(src, StartOf(src), |src|, START).inString then None
                 else Some(Run(src, StartOf(src), |src|, START))
  {
    hide Step;
    if |src| > MAX_INPUT {
      return None;
    }
    var i := 0;
    if |src| >= 3 && src[0] == 0xEF && src[1] == 0xBB && src[2] == 0xBF {
      i := 3;
    }
    var st := START;
    while i < |src|
      invariant StartOf(src) <= i <= |src|
      invariant Run(src, i, |src|, st) == Run(src, StartOf(src), |src|, START)
    {
      st := ScanByte(st, src[i]);
      i := i + 1;
    }
    e := if st.inString then None else Some(st);
  }

  /** The body of the loop, with its `continue`s and its `switch`. */
  method ScanByte(was: Scan, c: byte) returns (st: Scan)
    ensures st == Step(was, c)
  {
    st := was;
    if st.inString {
      if st.escape {
        st := st.(escape := false);
        st := st.(stringBytes := st.stringBytes + 1);
        return;
      }
      if c == BACKSLASH {
        st := st.(escape := true);
        return;
      }
      if c == QUOTE {
        st := st.(inString := false);
        st := st.(values := st.values + 1);
        return;
      }
      st := st.(stringBytes := st.stringBytes + 1);
      return;
    }
    var a := st.tally;
    if c == QUOTE {
      st := st.(inString := true);
    } else if c == 123 {
      a := a.(objects := a.objects + 1);
      a := a.(depth := a.depth + 1);
      if a.depth > a.maxDepth {
        a := a.(maxDepth := a.depth);
      }
    } else if c == 91 {
      a := a.(arrays := a.arrays + 1);
      a := a.(depth := a.depth + 1);
      if a.depth > a.maxDepth {
        a := a.(maxDepth := a.depth);
      }
    } else if c == 125 || c == 93 {
      if a.depth > 0 {
        a := a.(depth := a.depth - 1);
      }
    } else if c == 116 || c == 102 || c == 110 || c == 45 || IsDigit(c) {
      st := st.(values := st.values + 1);
    }
    st := st.(tally := a);
  }

  // ---------------------------------------------------------------- one token

  /** What a token does to the exact counters. */
  function Effect(k: TokenType, a: Tally): Tally {
    if k == TBraceOpen then Deeper(a.(objects := a.objects + 1))
    else if k == TBracketOpen then Deeper(a.(arrays := a.arrays + 1))
    else if k == TBraceClose || k == TBracketClose then Shallower(a)
    else a
  }

  /** `now` is `was` after a token of kind `k`: a literal or key is counted at least once. */
  ghost predicate After(was: Scan, k: TokenType, now: Scan) {
    && !now.inString && !now.escape
    && now.tally == Effect(k, was.tally)
    && now.values >= was.values + (if LiteralKind(k) then 1 else 0)
  }

  /** A byte that neither opens nor closes anything. */
  predicate Neutral(c: byte) { c != QUOTE && c != 123 && c != 125 && c != 91 && c != 93 }

  lemma {:induction false} PlainRun(s: bytes, i: nat, j: nat, st: Scan)
    requires i <= j <= |s| && !st.inString && !st.escape && forall k :: i <= k < j ==> Neutral(s[k])
    ensures var r := Run(s, i, j, st); !r.inString && !r.escape && r.tally == st.tally && r.values >= st.values
    decreases j - i
  {
    if i < j {
      PlainRun(s, i + 1, j, Step(st, s[i]));
    }
  }

  /** A numeral or a word is counted when its first byte is. */
  lemma WordRun(s: bytes, i: nat, j: nat, st: Scan)
    requires i < j <= |s| && !st.inString && !st.escape && forall k :: i <= k < j ==> Neutral(s[k])
    requires s[i] == 116 || s[i] == 102 || s[i] == 110 || s[i] == 45 || IsDigit(s[i])
    ensures var r := Run(s, i, j, st); !r.inString && !r.escape && r.tally == st.tally && r.values >= st.values + 1
  {
    PlainRun(s, i + 1, j, Step(st, s[i]));
  }

  lemma {:induction false} SpacesRun(s: bytes, p: nat, st: Scan)
    requires p <= |s| && !st.inString
    ensures Run(s, p, SkipSpaces(s, p), st) == st
    decreases |s| - p
  {
    if p < |s| && IsSpace(s[p]) {
      SpacesRun(s, p + 1, st);
    }
  }

  /** Bytes of a string body that are neither quote nor backslash. */
  lemma {:induction false} BodyRun(s: bytes, i: nat, j: nat, st: Scan)
    requires i <= j <= |s| && st.inString && !st.escape
    requires forall k :: i <= k < j ==> s[k] != QUOTE && s[k] != BACKSLASH
    ensures var r := Run(s, i, j, st); r.inString && !r.escape && r.tally == st.tally && r.values == st.values
    decreases j - i
  {
    if i < j {
      BodyRun(s, i + 1, j, Step(st, s[i]));
    }
  }

  /** A backslash hides the byte behind it. */
  lemma EscapedRun(s: bytes, i: nat, j: nat, st: Scan)
    requires i + 2 <= j <= |s| && st.inString && !st.escape && s[i] == BACKSLASH
    requires forall k :: i + 2 <= k < j ==> s[k] != QUOTE && s[k] != BACKSLASH
    ensures var r := Run(s, i, j, st); r.inString && !r.escape && r.tally == st.tally && r.values == st.values
  {
    var st2 := Step(Step(st, s[i]), s[i + 1]);
    assert Run(s, i, j, st) == Run(s, i + 2, j, st2);
    BodyRun(s, i + 2, j, st2);
  }

  lemma HexQuiet(s: bytes, i: nat)
    requires HexAt(s, i)
    ensures forall k :: i <= k < i + 4 ==> s[k] != QUOTE && s[k] != BACKSLASH
  {
    forall k | i <= k < i + 4 ensures s[k] != QUOTE && s[k] != BACKSLASH {
      assert k == i || k == i + 1 || k == i + 2 || k == i + 3;
    }
  }

  lemma EscapeRun(s: bytes, i: nat, st: Scan)
    requires i < |s| && s[i] == BACKSLASH && EscapeLen(s, i) > 0 && st.inString && !st.escape
    ensures var r := Run(s, i, i + EscapeLen(s, i), st); r.inString && !r.escape && r.tally == st.tally && r.values == st.values
  {
    hide HexOf;
    hide Run;
    var n := EscapeLen(s, i);
    if n == 2 {
      EscapedRun(s, i, i + 2, st);
    } else {
      HexQuiet(s, i + 2);
      EscapedRun(s, i, i + 6, st);
      if n == 12 {
        HexQuiet(s, i + 8);
        RunSplit(s, i, i + 6, i + 12, st);
        EscapedRun(s, i + 6, i + 12, Run(s, i, i + 6, st));
      }
    }
  }

  lemma Utf8Quiet(s: bytes, i: nat)
    requires i < |s| && s[i] != QUOTE && s[i] != BACKSLASH
    ensures forall k :: i <= k < i + Utf8Len(s, i) ==> s[k] != QUOTE && s[k] != BACKSLASH
  {
    forall k | i <= k < i + Utf8Len(s, i) ensures s[k] != QUOTE && s[k] != BACKSLASH {
      assert k == i || k == i + 1 || k == i + 2 || k == i + 3;
    }
  }

  lemma CharRun(s: bytes, i: nat, st: Scan)
    requires i < |s| && CharLen(s, i) > 0 && st.inString && !st.escape
    ensures var r := Run(s, i, i + CharLen(s, i), st); r.inString && !r.escape && r.tally == st.tally && r.values == st.values
  {
    hide EscapeLen;
    hide Utf8Len;
    hide Run;
    if s[i] == BACKSLASH {
      EscapeRun(s, i, st);
    } else {
      Utf8Quiet(s, i);
      BodyRun(s, i, i + CharLen(s, i), st);
    }
  }

  /** The scan leaves a string where the lexer does, and counts it once. */
  lemma {:induction false} StringRun(s: bytes, i: nat, st: Scan)
    requires i <= |s| && StringEnd(s, i).Some? && st.inString && !st.escape
    ensures var r := Run(s, i, StringEnd(s, i).value + 1, st);
            !r.inString && !r.escape && r.tally == st.tally && r.values == st.values + 1
    decreases |s| - i
  {
    hide CharLen;
    hide Run;
    hide Step;
    var e := StringEnd(s, i).value;
    if s[i] == QUOTE {
      RunOne(s, i, st);
      QuoteStep(st);
    } else {
      var j := i + CharLen(s, i);
      CharRun(s, i, st);
      StringRun(s, j, Run(s, i, j, st));
      RunSplit(s, i, j, e + 1, st);
    }
  }

  lemma QuoteStep(st: Scan)
    requires !st.escape
    ensures !Step(st, QUOTE).escape && Step(st, QUOTE).tally == st.tally
    ensures Step(st, QUOTE).inString == !st.inString
    ensures Step(st, QUOTE).values == st.values + (if st.inString then 1 else 0)
  {
  }

  predicate NumeralByte(c: byte) { IsDigit(c) || c == 43 || c == 45 || c == 46 || c == 101 || c == 69 }

  ghost predicate NumeralBytes(s: bytes, i: nat, j: nat) {
    i <= j <= |s| && forall k :: i <= k < j ==> NumeralByte(s[k])
  }

  lemma NumeralJoin(s: bytes, i: nat, k: nat, j: nat)
    requires NumeralBytes(s, i, k) && NumeralBytes(s, k, j)
    ensures NumeralBytes(s, i, j)
  {
    hide NumeralByte;
  }

  lemma DigitsNumeral(s: bytes, i: nat)
    requires i <= |s|
    ensures NumeralBytes(s, i, DigitsEnd(s, i))
  {
    hide DigitsEnd;
  }

  lemma NumeralOne(s: bytes, i: nat)
    requires i < |s| && NumeralByte(s[i])
    ensures NumeralBytes(s, i, i + 1)
  {
  }

  lemma IntNumeral(s: bytes, i: nat)
    requires IntEnd(s, i).Some?
    ensures NumeralBytes(s, i, IntEnd(s, i).value)
  {
    hide DigitsEnd;
    hide NumeralBytes;
    NumeralOne(s, i);
    DigitsNumeral(s, i + 1);
    if s[i] != 48 {
      NumeralJoin(s, i, i + 1, DigitsEnd(s, i + 1));
    }
  }

  lemma FracNumeral(s: bytes, i: nat)
    requires i <= |s| && FracEnd(s, i).Some?
    ensures NumeralBytes(s, i, FracEnd(s, i).value)
  {
    hide DigitsEnd;
    if ByteAt(s, i, 46) {
      NumeralOne(s, i);
      DigitsNumeral(s, i + 1);
      NumeralJoin(s, i, i + 1, DigitsEnd(s, i + 1));
    }
  }

  lemma ExpNumeral(s: bytes, i: nat)
    requires i <= |s| && ExpEnd(s, i).Some?
    ensures NumeralBytes(s, i, ExpEnd(s, i).value)
  {
    hide DigitsEnd;
    if ByteAt(s, i, 101) || ByteAt(s, i, 69) {
      var j := SignEnd(s, i + 1);
      NumeralOne(s, i);
      DigitsNumeral(s, j);
      NumeralJoin(s, i, i + 1, j);
      NumeralJoin(s, i, j, DigitsEnd(s, j));
    }
  }

  lemma NumberNumeral(s: bytes, i: nat)
    requires i < |s| && NumberEnd(s, i).Some?
    ensures NumeralBytes(s, i, NumberEnd(s, i).value)
    ensures NumberEnd(s, i).value > i && (s[i] == 45 || IsDigit(s[i]))
  {
    hide IntEnd;
    hide FracEnd;
    hide ExpEnd;
    hide NumeralBytes;
    var j := if s[i] == 45 then i + 1 else i;
    var a := IntEnd(s, j).value;
    var b := FracEnd(s, a).value;
    NumeralOnce(s, i, j);
    IntStarts(s, j);
    IntNumeral(s, j);
    FracNumeral(s, a);
    ExpNumeral(s, b);
    NumeralJoin(s, i, j, a);
    NumeralJoin(s, i, a, b);
    NumeralJoin(s, i, b, ExpEnd(s, b).value);
  }

  lemma NumeralOnce(s: bytes, i: nat, j: nat)
    requires i < |s| && j == if s[i] == 45 then i + 1 else i
    ensures NumeralBytes(s, i, j)
  {
  }

  lemma IntStarts(s: bytes, i: nat)
    requires IntEnd(s, i).Some?
    ensures i < |s| && IsDigit(s[i])
  {
  }

  lemma NumeralPlain(s: bytes, i: nat, j: nat)
    requires NumeralBytes(s, i, j)
    ensures forall k :: i <= k < j ==> Neutral(s[k])
  {
    forall k | i <= k < j ensures Neutral(s[k]) {
      assert NumeralByte(s[k]);
    }
  }

  lemma WordPlain(s: bytes, i: nat, w: bytes)
    requires WordAt(s, i, w) && forall k :: 0 <= k < |w| ==> Neutral(w[k])
    ensures i + |w| <= |s| && forall k :: i <= k < i + |w| ==> Neutral(s[k])
    ensures w != [] ==> s[i] == w[0]
  {
    hide Neutral;
    forall k | i <= k < i + |w| ensures s[k] == w[k - i] {
      assert s[i..i + |w|][k - i] == s[k];
    }
  }

  lemma LiteralRun(s: bytes, i: nat, w: bytes, st: Scan)
    requires WordAt(s, i, w) && (w == TRUE_WORD || w == FALSE_WORD || w == NULL_WORD) && !st.inString && !st.escape
    ensures var r := Run(s, i, i + |w|, st); !r.inString && !r.escape && r.tally == st.tally && r.values >= st.values + 1
  {
    hide WordAt;
    hide Run;
    assert forall k :: 0 <= k < |w| ==> Neutral(w[k]);
    WordPlain(s, i, w);
    WordRun(s, i, i + |w|, st);
  }

  lemma PunctuationRun(c: byte, st: Scan)
    requires Punctuation(c).Some? && !st.inString && !st.escape
    ensures After(st, Punctuation(c).value, Step(st, c))
  {
  }

  lemma QuietEffects()
    ensures forall k: TokenType, a: Tally :: LiteralKind(k) ==> Effect(k, a) == a
  {
  }

  /** Scanning one token's bytes does what the token says. */
  lemma LexAtRun(s: bytes, p: nat, st: Scan)
    requires p < |s| && LexAt(s, p).Good? && !st.inString && !st.escape
    ensures After(st, LexAt(s, p).tok.kind, Run(s, p, LexAt(s, p).next, st))
  {
    hide StringEnd;
    hide NumberEnd;
    hide WordAt;
    hide Run;
    hide Step;
    hide Punctuation;
    hide Effect;
    var c := s[p];
    RunOne(s, p, st);
    QuietEffects();
    if Punctuation(c).Some? {
      PunctuationRun(c, st);
    } else if c == QUOTE {
      var e := StringEnd(s, p + 1).value;
      QuoteStep(st);
      StringRun(s, p + 1, Step(st, c));
      RunSplit(s, p, p + 1, e + 1, st);
    } else if c == 45 || IsDigit(c) {
      NumberNumeral(s, p);
      NumeralPlain(s, p, NumberEnd(s, p).value);
      WordRun(s, p, NumberEnd(s, p).value, st);
    } else if WordAt(s, p, TRUE_WORD) {
      LiteralRun(s, p, TRUE_WORD, st);
    } else if WordAt(s, p, FALSE_WORD) {
      LiteralRun(s, p, FALSE_WORD, st);
    } else {
      LiteralRun(s, p, NULL_WORD, st);
    }
  }

  lemma LexRun(s: bytes, p: nat, st: Scan)
    requires p <= |s| && Lex(s, p).Good? && !st.inString && !st.escape
    ensures After(st, Lex(s, p).tok.kind, Run(s, p, Lex(s, p).next, st))
  {
    hide LexAt;
    hide Run;
    hide SkipSpaces;
    var q := SkipSpaces(s, p);
    SpacesRun(s, p, st);
    LexAtRun(s, q, st);
    RunSplit(s, p, q, LexAt(s, q).next, st);
  }

  // ---------------------------------------------------------------- all tokens

  function Effects(ts: seq<Token>, a: Tally): Tally {
    if ts == [] then a else Effects(ts[1..], Effect(ts[0].kind, a))
  }

  /** Literals and keys among the tokens. */
  function Literals(ts: seq<Token>): nat {
    if ts == [] then 0 else (if LiteralKind(ts[0].kind) then 1 else 0) + Literals(ts[1..])
  }

  lemma {:induction false} TokensRun(s: bytes, p: nat, st: Scan)
    requires p <= |s| && !st.inString && !st.escape && BAD_TOKEN !in Tokens(s, p)
    ensures var r := Run(s, p, |s|, st);
            && !r.inString && r.tally == Effects(Tokens(s, p), st.tally)
            && r.values >= st.values + Literals(Tokens(s, p))
    decreases |s| - p
  {
    hide Run;
    hide Effect;
    hide LiteralKind;
    hide LexAt;
    hide SkipSpaces;
    if Lex(s, p).Good? {
      var tok, next := Lex(s, p).tok, Lex(s, p).next;
      LexRun(s, p, st);
      var rest := Tokens(s, next);
      TokenFirst(tok, rest);
      TokensRun(s, next, Run(s, p, next, st));
      RunSplit(s, p, next, |s|, st);
      assert ([tok] + rest)[1..] == rest;
    } else {
      BadShows(s, p);
      SpacesRun(s, p, st);
    }
  }

  lemma BadShows(s: bytes, p: nat)
    requires p <= |s|
    ensures Lex(s, p).BadToken? ==> BAD_TOKEN in Tokens(s, p)
  {
    hide Lex;
    if Lex(s, p).BadToken? {
      assert Tokens(s, p)[0] == BAD_TOKEN;
    }
  }

  lemma TokenFirst(tok: Token, rest: seq<Token>)
    ensures BAD_TOKEN !in [tok] + rest ==> BAD_TOKEN !in rest
  {
  }

  // ---------------------------------------------------------------- a whole value

  /** Objects, arrays and leaves of a value; keys are counted by `KeyCount`. */
  datatype Census = Census(objects: nat, arrays: nat, leaves: nat)

  function Plus(a: Census, b: Census): Census {
    Census(a.objects + b.objects, a.arrays + b.arrays, a.leaves + b.leaves)
  }

  function CensusOf(t: Tree): Census
    decreases t
  {
    match t
    case Leaf(_, _) => Census(0, 0, 1)
    case Arr(_, items) => Plus(Census(0, 1, 0), CensusItems(items))
    case Obj(_, ms) => Plus(Census(1, 0, 0), CensusMembers(ms))
  }

  function CensusItems(items: seq<Tree>): Census
    decreases items
  {
    if items == [] then Census(0, 0, 0) else Plus(CensusOf(items[0]), CensusItems(items[1..]))
  }

  function CensusMembers(ms: seq<Member>): Census
    decreases ms
  {
    if ms == [] then Census(0, 0, 0)
    else assert ms[0].val < ms[0]; Plus(CensusOf(ms[0].val), CensusMembers(ms[1..]))
  }

  function Most(a: nat, b: nat): nat { if a < b then b else a }

  /** The counters after containers have been opened and closed again. */
  function Grown(a: Tally, c: Census, nesting: nat): Tally {
    Tally(a.objects + c.objects, a.arrays + c.arrays, a.depth, Most(a.maxDepth, a.depth + nesting))
  }

  /** A sequence of tokens that is balanced: `c` and `n` are its totals. */
  ghost predicate Balanced(ts: seq<Token>, c: Census, nesting: nat, keys: nat) {
    && (forall a: Tally :: a.maxDepth >= a.depth ==> Effects(ts, a) == Grown(a, c, nesting))
    && Literals(ts) == c.leaves + keys
  }

  lemma {:induction false} EffectsAppend(x: seq<Token>, y: seq<Token>, a: Tally)
    ensures Effects(x + y, a) == Effects(y, Effects(x, a))
    decreases x
  {
    hide Effect;
    if x == [] {
      assert x + y == y;
    } else {
      EffectsAppend(x[1..], y, Effect(x[0].kind, a));
      assert (x + y)[1..] == x[1..] + y;
    }
  }

  lemma {:induction false} LiteralsAppend(x: seq<Token>, y: seq<Token>)
    ensures Literals(x + y) == Literals(x) + Literals(y)
  {
    hide LiteralKind;
    if x == [] {
      assert x + y == y;
    } else {
      LiteralsAppend(x[1..], y);
      assert (x + y)[1..] == x[1..] + y;
    }
  }

  lemma GrownTwice(a: Tally, c: Census, d: Census, n: nat, m: nat)
    ensures Grown(Grown(a, c, n), d, m) == Grown(a, Plus(c, d), Most(n, m))
    ensures a.maxDepth >= a.depth ==> Grown(a, c, n).maxDepth >= Grown(a, c, n).depth
  {
  }

  lemma BalancedMeans(ts: seq<Token>, c: Census, n: nat, keys: nat, a: Tally)
    requires Balanced(ts, c, n, keys)
    ensures a.maxDepth >= a.depth ==> Effects(ts, a) == Grown(a, c, n)
    ensures Literals(ts) == c.leaves + keys
  {
    hide Effects;
    hide Literals;
    hide Grown;
  }

  lemma JoinAt(x: seq<Token>, y: seq<Token>, c: Census, d: Census, n: nat, m: nat, i: nat, j: nat, a: Tally)
    requires Balanced(x, c, n, i) && Balanced(y, d, m, j) && a.maxDepth >= a.depth
    ensures Effects(x + y, a) == Grown(a, Plus(c, d), Most(n, m))
  {
    hide *;
    EffectsAppend(x, y, a);
    BalancedMeans(x, c, n, i, a);
    GrownTwice(a, c, d, n, m);
    BalancedMeans(y, d, m, j, Effects(x, a));
  }

  lemma BalancedJoin(x: seq<Token>, y: seq<Token>, c: Census, d: Census, n: nat, m: nat, i: nat, j: nat)
    requires Balanced(x, c, n, i) && Balanced(y, d, m, j)
    ensures Balanced(x + y, Plus(c, d), Most(n, m), i + j)
  {
    hide Effects;
    hide Literals;
    hide Grown;
    hide Most;
    LiteralsAppend(x, y);
    forall a: Tally | a.maxDepth >= a.depth ensures Effects(x + y, a) == Grown(a, Plus(c, d), Most(n, m)) {
      JoinAt(x, y, c, d, n, m, i, j, a);
    }
  }

  lemma BalancedOne(tok: Token)
    requires LiteralKind(tok.kind) || tok.kind == TColon || tok.kind == TComma
    ensures Balanced([tok], Census(0, 0, if LiteralKind(tok.kind) then 1 else 0), 0, 0)
  {
    hide Effects;
    hide Literals;
    var c := Census(0, 0, if LiteralKind(tok.kind) then 1 else 0);
    LiteralsOne(tok);
    forall a: Tally | a.maxDepth >= a.depth ensures Effects([tok], a) == Grown(a, c, 0) {
      EffectsOne(tok, a);
    }
  }

  lemma BalancedKey(tok: Token)
    requires LiteralKind(tok.kind)
    ensures Balanced([tok, COLON], Census(0, 0, 0), 0, 1)
  {
    hide Effects;
    hide Literals;
    BalancedOne(tok);
    BalancedOne(COLON);
    BalancedJoin([tok], [COLON], Census(0, 0, 1), Census(0, 0, 0), 0, 0, 0, 0);
    assert [tok] + [COLON] == [tok, COLON];
  }

  lemma BalancedNone()
    ensures Balanced([], Census(0, 0, 0), 0, 0)
  {
  }

  lemma WrapAt(open: Token, body: seq<Token>, close: Token, c: Census, n: nat, keys: nat, a: Tally)
    requires Balanced(body, c, n, keys) && a.maxDepth >= a.depth
    requires (open.kind == TBraceOpen && close.kind == TBraceClose) || (open.kind == TBracketOpen && close.kind == TBracketClose)
    ensures Effects([open] + body + [close], a)
         == Grown(a, Plus(if open.kind == TBraceOpen then Census(1, 0, 0) else Census(0, 1, 0), c), 1 + n)
  {
    hide Effects;
    hide Literals;
    hide Balanced;
    EffectsAppend([open] + body, [close], a);
    EffectsAppend([open], body, a);
    EffectsOne(open, a);
    BalancedMeans(body, c, n, keys, Effect(open.kind, a));
    EffectsOne(close, Grown(Effect(open.kind, a), c, n));
  }

  /** Brackets around a balanced sequence. */
  lemma BalancedWrap(open: Token, body: seq<Token>, close: Token, c: Census, n: nat, keys: nat)
    requires Balanced(body, c, n, keys)
    requires (open.kind == TBraceOpen && close.kind == TBraceClose) || (open.kind == TBracketOpen && close.kind == TBracketClose)
    ensures Balanced([open] + body + [close],
                     Plus(if open.kind == TBraceOpen then Census(1, 0, 0) else Census(0, 1, 0), c), 1 + n, keys)
  {
    hide Effects;
    hide Literals;
    hide Grown;
    var one := if open.kind == TBraceOpen then Census(1, 0, 0) else Census(0, 1, 0);
    LiteralsAppend([open] + body, [close]);
    LiteralsAppend([open], body);
    LiteralsOne(open);
    LiteralsOne(close);
    forall a: Tally | a.maxDepth >= a.depth
      ensures Effects([open] + body + [close], a) == Grown(a, Plus(one, c), 1 + n)
    {
      WrapAt(open, body, close, c, n, keys, a);
    }
  }

  lemma LiteralsOne(tok: Token)
    ensures Literals([tok]) == if LiteralKind(tok.kind) then 1 else 0
  {
    hide LiteralKind;
    assert Literals([tok][1..]) == 0;
  }

  lemma EffectsOne(tok: Token, a: Tally)
    ensures Effects([tok], a) == Effect(tok.kind, a)
  {
    hide Effect;
    assert Effects([tok][1..], Effect(tok.kind, a)) == Effect(tok.kind, a);
  }

  lemma {:induction false} SpellBalanced(t: Tree)
    requires Doc(t)
    ensures Balanced(Spell(t), CensusOf(t), Nesting(t), KeyCount(t))
    decreases t, 1
  {
    hide Balanced;
    match t {
      case Leaf(_, tok) => BalancedOne(tok);
      case Arr(_, items) =>
        ItemsBalanced(items);
        BalancedWrap(BracketToken, SpellItems(items), BRACKET_CLOSE, CensusItems(items), NestingItems(items), KeyCountItems(items));
      case Obj(_, ms) =>
        MembersBalanced(ms);
        BalancedWrap(BraceToken, SpellMembers(ms), BRACE_CLOSE, CensusMembers(ms), NestingMembers(ms), KeyCountMembers(ms));
    }
  }

  lemma PlusZero(c: Census, n: nat)
    ensures Plus(c, Census(0, 0, 0)) == c && Plus(Census(0, 0, 0), c) == c && Most(n, 0) == n && Most(0, n) == n
  {
  }

  lemma ItemsForm(items: seq<Tree>)
    requires items != []
    ensures CensusItems(items) == Plus(CensusOf(items[0]), CensusItems(items[1..]))
    ensures NestingItems(items) == Most(Nesting(items[0]), NestingItems(items[1..]))
    ensures KeyCountItems(items) == KeyCount(items[0]) + KeyCountItems(items[1..])
    ensures SpellItems(items) == if |items| == 1 then Spell(items[0]) + SpellItems(items[1..])
                                 else Spell(items[0]) + [COMMA] + SpellItems(items[1..])
  {
    hide Spell;
    hide CensusOf;
    hide Nesting;
    hide KeyCount;
    hide Plus;
  }

  lemma {:induction false} ItemsBalanced(items: seq<Tree>)
    requires forall i :: 0 <= i < |items| ==> Doc(items[i])
    ensures Balanced(SpellItems(items), CensusItems(items), NestingItems(items), KeyCountItems(items))
    decreases items, 0
  {
    hide *;
    if items == [] {
      NoItems();
      BalancedNone();
    } else {
      var x := items[0];
      var rest := items[1..];
      var c := CensusOf(x);
      SpellBalanced(x);
      ItemsBalanced(rest);
      ItemsForm(items);
      PlusZero(c, Nesting(x));
      CommaIsNoLiteral();
      BalancedOne(COMMA);
      BalancedJoin(Spell(x), [COMMA], c, Census(0, 0, 0), Nesting(x), 0, KeyCount(x), 0);
      BalancedJoin(if |items| == 1 then Spell(x) else Spell(x) + [COMMA], SpellItems(rest), c, CensusItems(rest),
                   Nesting(x), NestingItems(rest), KeyCount(x), KeyCountItems(rest));
    }
  }

  lemma NoItems()
    ensures SpellItems([]) == [] && CensusItems([]) == Census(0, 0, 0) && NestingItems([]) == 0 && KeyCountItems([]) == 0
    ensures SpellMembers([]) == [] && CensusMembers([]) == Census(0, 0, 0) && NestingMembers([]) == 0 && KeyCountMembers([]) == 0
  {
  }

  lemma CommaIsNoLiteral()
    ensures !LiteralKind(COMMA.kind) && COMMA.kind == TComma
  {
  }

  lemma MembersForm(ms: seq<Member>)
    requires ms != []
    ensures CensusMembers(ms) == Plus(CensusOf(ms[0].val), CensusMembers(ms[1..]))
    ensures NestingMembers(ms) == Most(Nesting(ms[0].val), NestingMembers(ms[1..]))
    ensures KeyCountMembers(ms) == 1 + KeyCount(ms[0].val) + KeyCountMembers(ms[1..])
    ensures SpellMembers(ms) == if |ms| == 1 then [ms[0].key, COLON] + Spell(ms[0].val) + SpellMembers(ms[1..])
                                else [ms[0].key, COLON] + Spell(ms[0].val) + [COMMA] + SpellMembers(ms[1..])
  {
    hide Spell;
    hide CensusOf;
    hide Nesting;
    hide KeyCount;
    hide Plus;
  }

  lemma KeyKind(m: Member)
    requires DocMember(m)
    ensures LiteralKind(m.key.kind) && Doc(m.val)
  {
    hide Doc;
  }

  lemma {:induction false} MembersBalanced(ms: seq<Member>)
    requires forall i :: 0 <= i < |ms| ==> DocMember(ms[i])
    ensures Balanced(SpellMembers(ms), CensusMembers(ms), NestingMembers(ms), KeyCountMembers(ms))
    decreases ms, 0
  {
    hide *;
    if ms == [] {
      NoItems();
      BalancedNone();
    } else {
      var m := ms[0];
      assert m.val < m;
      var rest := ms[1..];
      var c := CensusOf(m.val);
      var pair := [m.key, COLON] + Spell(m.val);
      KeyKind(m);
      SpellBalanced(m.val);
      MembersBalanced(rest);
      MembersForm(ms);
      BalancedKey(m.key);
      PlusZero(c, Nesting(m.val));
      BalancedJoin([m.key, COLON], Spell(m.val), Census(0, 0, 0), c, 0, Nesting(m.val), 1, KeyCount(m.val));
      CommaIsNoLiteral();
      BalancedOne(COMMA);
      BalancedJoin(pair, [COMMA], c, Census(0, 0, 0), Nesting(m.val), 0, 1 + KeyCount(m.val), 0);
      BalancedJoin(if |ms| == 1 then pair else pair + [COMMA], SpellMembers(rest), c, CensusMembers(rest),
                   Nesting(m.val), NestingMembers(rest), 1 + KeyCount(m.val), KeyCountMembers(rest));
    }
  }

  // ---------------------------------------------------------------- sizing

  lemma {:induction false} DocKinds(t: Tree)
    requires Doc(t)
    ensures BAD_TOKEN !in Spell(t)
    decreases t, 1
  {
    match t {
      case Leaf(_, _) =>
      case Arr(_, items) => ItemsKinds(items);
      case Obj(_, ms) => MembersKinds(ms);
    }
  }

  lemma {:induction false} ItemsKinds(items: seq<Tree>)
    requires forall i :: 0 <= i < |items| ==> Doc(items[i])
    ensures BAD_TOKEN !in SpellItems(items)
    decreases items, 0
  {
    hide Doc;
    hide Spell;
    if items != [] {
      DocKinds(items[0]);
      ItemsKinds(items[1..]);
    }
  }

  lemma {:induction false} MembersKinds(ms: seq<Member>)
    requires forall i :: 0 <= i < |ms| ==> DocMember(ms[i])
    ensures BAD_TOKEN !in SpellMembers(ms)
    decreases ms, 0
  {
    hide Doc;
    hide Spell;
    if ms != [] {
      assert ms[0].val < ms[0];
      DocKinds(ms[0].val);
      MembersKinds(ms[1..]);
    }
  }

  /** On every text of the grammar the scan counts objects and arrays exactly, finds the
      nesting depth, and counts each leaf and each key at least once. */
  lemma EstimateExact(src: bytes, t: Tree)
    requires IsTextOf(src, t)
    ensures var e := Run(src, StartOf(src), |src|, START);
            && !e.inString
            && e.tally == Tally(CensusOf(t).objects, CensusOf(t).arrays, 0, Nesting(t))
            && e.values >= CensusOf(t).leaves + KeyCount(t)
  {
    hide Run;
    hide Tokens;
    hide Spell;
    hide Doc;
    hide Effects;
    hide Literals;
    hide CensusOf;
    hide Nesting;
    hide KeyCount;
    hide Balanced;
    hide IsTextOf;
    TextSpelled(src, t);
    DocKinds(t);
    SpellBalanced(t);
    TokensRun(src, StartOf(src), START);
    BalancedMeans(Spell(t), CensusOf(t), Nesting(t), KeyCount(t), NOTHING);
  }

  /** The capacity of the key set and of the key-tree pool. */
  function Capacity(values: nat): (r: nat)
    ensures r >= values
  {
    NextPowerOfTwo(values * 12 / 10)
  }

  /** The set keeps the capacity it is given. */
  lemma CapacityKept(values: nat)
    ensures FloorPowerOfTwo(Capacity(values)) == Capacity(values)
  {
    FloorKeepsNext(values * 12 / 10);
  }

  lemma RoomEnough(src: bytes)
    ensures RoomFor(src, Capacity(Run(src, StartOf(src), |src|, START).values))
  {
    hide Run;
    hide Capacity;
    hide IsTextOf;
    hide KeyCount;
    hide CensusOf;
    hide Nesting;
    var keys := Capacity(Run(src, StartOf(src), |src|, START).values);
    forall t: Tree | IsTextOf(src, t) ensures KeyCount(t) <= keys {
      EstimateExact(src, t);
    }
  }

  /** `parse_to_ast` behind `prescan`: with the sizes the scan gives, neither the key set
      nor the key-tree pool is ever full, and every text of the grammar nested at most 64
      deep is parsed. */
  method ParseToAst(src: bytes, hash: bytes -> nat) returns (ok: bool, b: Option<Builder>)
    ensures ok <==> |src| <= 4294967295 && exists t: Tree :: IsTextOf(src, t) && Nesting(t) <= 64
    ensures ok ==> b.Some? && Rooted(b.value.nodes, b.value.keyTree.nodes)
    ensures ok ==> b.Some? && forall t: Tree :: IsTextOf(src, t) ==>
                     && |b.value.nodes| == Len(t) <= |src|
                     && Built(b.value.nodes, 0, Marked(0, t, false), -1)
                     && At(b.value.nodes, 0, Marked(0, t, false))
                     && Sorted(b.value.nodes, b.value.keyTree.nodes, 0, Marked(0, t, false))
                     && |b.value.keyTree.nodes| <= KeyCount(t)
  {
    hide Run;
    hide IsTextOf;
    hide Nesting;
    hide Built;
    hide At;
    hide Marked;
    hide Len;
    hide RoomFor;
    hide Probed;
    hide Members;
    hide Used;
    hide NextPowerOfTwo;
    hide KeyCount;
    hide CensusOf;
    hide Sorted;
    hide Rooted;
    var e := Estimate(src);
    if e.None? {
      StringsClose(src);
      return false, None;
    }
    var capacity := Capacity(e.value.values);
    CapacityKept(e.value.values);
    var keySet := new Set(hash, capacity);
    var keyTree := new KeyTreePool(capacity);
    RoomEnough(src);
    var built;
    ok, built := ParseText(src, keySet, keyTree);
    b := Some(built);
  }

  lemma StringsClose(src: bytes)
    ensures forall t: Tree :: IsTextOf(src, t) ==> !Run(src, StartOf(src), |src|, START).inString
  {
    hide *;
    forall t: Tree | IsTextOf(src, t) ensures !Run(src, StartOf(src), |src|, START).inString {
      EstimateExact(src, t);
    }
  }
}
