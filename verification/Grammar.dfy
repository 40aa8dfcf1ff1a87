/** The grammar of JSON over tokens (section 2 of RFC 8259): how a value is spelled, and
    the one value a token sequence can start with. */
module Grammar {
  import opened Bytes
  import opened Ast
  import opened Lexing

  const BRACE_CLOSE := Token(TBraceClose, [125], false)
  const BRACKET_CLOSE := Token(TBracketClose, [93], false)
  const COLON := Token(TColon, [58], false)
  const COMMA := Token(TComma, [44], false)

  /** A value as it is written: nothing is marked as skipped yet. */
  ghost predicate Doc(t: Tree)
    decreases t
  {
    !t.skip &&
    match t
    case Leaf(_, tok) => LiteralKind(tok.kind)
    case Arr(_, items) => forall i :: 0 <= i < |items| ==> Doc(items[i])
    case Obj(_, ms) => forall i :: 0 <= i < |ms| ==> DocMember(ms[i])
  }

  ghost predicate DocMember(m: Member)
    decreases m
  {
    !m.keySkip && m.key.kind == TString && (assert m.val < m; Doc(m.val))
  }

  function Spell(t: Tree): (ts: seq<Token>)
    ensures ts != []
    decreases t
  {
    match t
    case Leaf(_, tok) => [tok]
    case Arr(_, items) => [BracketToken] + SpellItems(items) + [BRACKET_CLOSE]
    case Obj(_, ms) => [BraceToken] + SpellMembers(ms) + [BRACE_CLOSE]
  }

  function SpellItems(items: seq<Tree>): seq<Token>
    decreases items
  {
    if items == [] then []
    else if |items| == 1 then Spell(items[0])
    else Spell(items[0]) + [COMMA] + SpellItems(items[1..])
  }

  function SpellMembers(ms: seq<Member>): seq<Token>
    decreases ms
  {
    if ms == [] then []
    else
      assert ms[0].val < ms[0];
      if |ms| == 1 then [ms[0].key, COLON] + Spell(ms[0].val)
      else [ms[0].key, COLON] + Spell(ms[0].val) + [COMMA] + SpellMembers(ms[1..])
  }

  /** How deep containers are nested. */
  function Nesting(t: Tree): nat
    decreases t
  {
    match t
    case Leaf(_, _) => 0
    case Arr(_, items) => 1 + NestingItems(items)
    case Obj(_, ms) => 1 + NestingMembers(ms)
  }

  function NestingItems(items: seq<Tree>): nat
    decreases items
  {
    if items == [] then 0
    else var a, b := Nesting(items[0]), NestingItems(items[1..]); if a < b then b else a
  }

  function NestingMembers(ms: seq<Member>): nat
    decreases ms
  {
    if ms == [] then 0
    else
      assert ms[0].val < ms[0];
      var a, b := Nesting(ms[0].val), NestingMembers(ms[1..]); if a < b then b else a
  }

  // ---------------------------------------------------------------- the value at the front

  function Head(ts: seq<Token>): Token {
    if ts == [] then END_TOKEN else ts[0]
  }

  datatype Parsed<T> = NoParse | Parsed(value: T, rest: seq<Token>)

  function ParseValue(ts: seq<Token>): (r: Parsed<Tree>)
    ensures r.Parsed? ==> |r.rest| < |ts|
    decreases |ts|, 1
  {
    var k := Head(ts).kind;
    if LiteralKind(k) then Parsed(Leaf(false, ts[0]), ts[1..])
    else if k == TBraceOpen then ParseObject(ts)
    else if k == TBracketOpen then ParseArray(ts)
    else NoParse
  }

  function ParseObject(ts: seq<Token>): (r: Parsed<Tree>)
    requires ts != []
    ensures r.Parsed? ==> |r.rest| < |ts|
    decreases |ts|, 0
  {
    var ts1 := ts[1..];
    if Head(ts1).kind == TBraceClose then Parsed(Obj(false, []), ts1[1..])
    else
      match ParseMembers(ts1)
      case NoParse => NoParse
      case Parsed(ms, rest) => if Head(rest).kind == TBraceClose then Parsed(Obj(false, ms), rest[1..]) else NoParse
  }

  function ParseArray(ts: seq<Token>): (r: Parsed<Tree>)
    requires ts != []
    ensures r.Parsed? ==> |r.rest| < |ts|
    decreases |ts|, 0
  {
    var ts1 := ts[1..];
    if Head(ts1).kind == TBracketClose then Parsed(Arr(false, []), ts1[1..])
    else
      match ParseElements(ts1)
      case NoParse => NoParse
      case Parsed(items, rest) => if Head(rest).kind == TBracketClose then Parsed(Arr(false, items), rest[1..]) else NoParse
  }

  /** A key, a colon and a value. */
  function ParsePair(ts: seq<Token>): (r: Parsed<Member>)
    ensures r.Parsed? ==> |r.rest| < |ts|
    decreases |ts|, 2
  {
    if Head(ts).kind != TString || Head(ts[1..]).kind != TColon then NoParse
    else
      match ParseValue(ts[2..])
      case NoParse => NoParse
      case Parsed(v, rest) => Parsed(Member(ts[0], false, v), rest)
  }

  function ParseMembers(ts: seq<Token>): (r: Parsed<seq<Member>>)
    ensures r.Parsed? ==> |r.rest| < |ts|
    decreases |ts|, 3
  {
    match ParsePair(ts)
    case NoParse => NoParse
    case Parsed(m, rest) =>
      match ParseMoreMembers(rest)
      case NoParse => NoParse
      case Parsed(ms, rest2) => Parsed([m] + ms, rest2)
  }

  function ParseMoreMembers(ts: seq<Token>): (r: Parsed<seq<Member>>)
    ensures r.Parsed? ==> |r.rest| <= |ts|
    decreases |ts|, 4
  {
    if Head(ts).kind == TComma then ParseMembers(ts[1..]) else Parsed([], ts)
  }

  function ParseElements(ts: seq<Token>): (r: Parsed<seq<Tree>>)
    ensures r.Parsed? ==> |r.rest| < |ts|
    decreases |ts|, 3
  {
    match ParseValue(ts)
    case NoParse => NoParse
    case Parsed(v, rest) =>
      match ParseMoreElements(rest)
      case NoParse => NoParse
      case Parsed(items, rest2) => Parsed([v] + items, rest2)
  }

  function ParseMoreElements(ts: seq<Token>): (r: Parsed<seq<Tree>>)
    ensures r.Parsed? ==> |r.rest| <= |ts|
    decreases |ts|, 4
  {
    if Head(ts).kind == TComma then ParseElements(ts[1..]) else Parsed([], ts)
  }

  // ---------------------------------------------------------------- every spelling is read back

  lemma HeadCons(t: Token, ts: seq<Token>)
    ensures Head([t] + ts) == t && ([t] + ts)[1..] == ts && ([t] + ts)[0] == t
  {
  }

  lemma {:induction false} SpellStart(t: Tree)
    requires Doc(t)
    ensures var k := Spell(t)[0].kind; k != TBraceClose && k != TBracketClose
    ensures t.Obj? ==> Spell(t)[0] == BraceToken
    ensures t.Arr? ==> Spell(t)[0] == BracketToken
  {
  }

  /** Reading a spelling gives the value back and leaves what follows. */
  lemma {:induction false} ReadBack(t: Tree, rest: seq<Token>)
    requires Doc(t)
    ensures ParseValue(Spell(t) + rest) == Parsed(t, rest)
    decreases t, 2
  {
    hide ParseMembers;
    hide ParseElements;
    hide SpellMembers;
    hide SpellItems;
    match t {
      case Leaf(_, tok) => HeadCons(tok, rest);
      case Arr(_, items) => ReadBackArray(t, rest);
      case Obj(_, ms) => ReadBackObject(t, rest);
    }
  }

  lemma {:induction false} ReadBackObject(t: Tree, rest: seq<Token>)
    requires Doc(t) && t.Obj?
    ensures ParseValue(Spell(t) + rest) == Parsed(t, rest)
    decreases t, 1
  {
    hide ParseMembers;
    hide SpellMembers;
    var body := SpellMembers(t.members);
    var ts := Spell(t) + rest;
    HeadCons(BRACE_CLOSE, rest);
    assert ts == [BraceToken] + (body + ([BRACE_CLOSE] + rest));
    HeadCons(BraceToken, body + ([BRACE_CLOSE] + rest));
    if t.members == [] {
      NoMembers();
      assert body + ([BRACE_CLOSE] + rest) == [BRACE_CLOSE] + rest;
    } else {
      MembersStart(t.members, [BRACE_CLOSE] + rest);
      ReadBackMembers(t.members, [BRACE_CLOSE] + rest);
    }
  }

  lemma NoMembers()
    ensures SpellMembers([]) == [] && SpellItems([]) == []
  {
  }

  lemma {:induction false} MembersStart(ms: seq<Member>, rest: seq<Token>)
    requires ms != [] && ms[0].key.kind == TString
    ensures Head(SpellMembers(ms) + rest) == ms[0].key
  {
    hide Spell;
    assert SpellMembers(ms)[0] == ms[0].key;
  }

  lemma {:induction false} ReadBackMembers(ms: seq<Member>, rest: seq<Token>)
    requires ms != [] && (forall i :: 0 <= i < |ms| ==> DocMember(ms[i])) && Head(rest).kind != TComma
    ensures ParseMembers(SpellMembers(ms) + rest) == Parsed(ms, rest)
    decreases ms, 1
  {
    hide Spell;
    hide Doc;
    hide ParseValue;
    hide SpellMembers;
    hide ParsePair;
    var m := ms[0];
    assert m.val < m;
    if |ms| == 1 {
      MembersOne(ms, rest);
      ReadBackPair(m, rest);
      assert [m] + [] == ms;
    } else {
      var more := SpellMembers(ms[1..]) + rest;
      MembersMore(ms, rest);
      ReadBackPair(m, [COMMA] + more);
      HeadCons(COMMA, more);
      ReadBackMembers(ms[1..], rest);
      assert [m] + ms[1..] == ms;
    }
  }

  lemma MembersOne(ms: seq<Member>, rest: seq<Token>)
    requires |ms| == 1
    ensures SpellMembers(ms) + rest == [ms[0].key, COLON] + Spell(ms[0].val) + rest
  {
    hide Spell;
  }

  lemma MembersMore(ms: seq<Member>, rest: seq<Token>)
    requires |ms| > 1
    ensures SpellMembers(ms) + rest == [ms[0].key, COLON] + Spell(ms[0].val) + ([COMMA] + (SpellMembers(ms[1..]) + rest))
  {
    hide Spell;
    var a := [ms[0].key, COLON] + Spell(ms[0].val);
    Regroup(a + [COMMA], SpellMembers(ms[1..]), rest);
    Regroup(a, [COMMA], SpellMembers(ms[1..]) + rest);
  }

  lemma {:induction false} ReadBackPair(m: Member, rest: seq<Token>)
    requires DocMember(m)
    ensures ParsePair([m.key, COLON] + Spell(m.val) + rest) == Parsed(m, rest)
    decreases m, 0
  {
    hide Spell;
    hide Doc;
    hide ParseValue;
    var ts := [m.key, COLON] + Spell(m.val) + rest;
    assert ts[2..] == Spell(m.val) + rest;
    ReadBack(m.val, rest);
  }

  lemma {:induction false} ReadBackArray(t: Tree, rest: seq<Token>)
    requires Doc(t) && t.Arr?
    ensures ParseValue(Spell(t) + rest) == Parsed(t, rest)
    decreases t, 1
  {
    hide ParseElements;
    hide SpellItems;
    var body := SpellItems(t.items);
    var ts := Spell(t) + rest;
    HeadCons(BRACKET_CLOSE, rest);
    assert ts == [BracketToken] + (body + ([BRACKET_CLOSE] + rest));
    HeadCons(BracketToken, body + ([BRACKET_CLOSE] + rest));
    if t.items == [] {
      NoMembers();
      assert body + ([BRACKET_CLOSE] + rest) == [BRACKET_CLOSE] + rest;
    } else {
      ItemsStart(t.items, [BRACKET_CLOSE] + rest);
      ReadBackItems(t.items, [BRACKET_CLOSE] + rest);
    }
  }

  lemma ItemsStart(items: seq<Tree>, rest: seq<Token>)
    requires items != [] && Doc(items[0])
    ensures Head(SpellItems(items) + rest).kind != TBracketClose
  {
    hide Spell;
    hide Doc;
    SpellStart(items[0]);
  }

  lemma {:induction false} ReadBackItems(items: seq<Tree>, rest: seq<Token>)
    requires items != [] && (forall i :: 0 <= i < |items| ==> Doc(items[i])) && Head(rest).kind != TComma
    ensures ParseElements(SpellItems(items) + rest) == Parsed(items, rest)
    decreases items, 1
  {
    hide Spell;
    hide Doc;
    hide ParseValue;
    hide SpellItems;
    var x := items[0];
    if |items| == 1 {
      ItemsOne(items, rest);
      ReadBack(x, rest);
      assert [x] + [] == items;
    } else {
      var more := SpellItems(items[1..]) + rest;
      ItemsMore(items, rest);
      ReadBack(x, [COMMA] + more);
      HeadCons(COMMA, more);
      ReadBackItems(items[1..], rest);
      assert [x] + items[1..] == items;
    }
  }

  lemma ItemsOne(items: seq<Tree>, rest: seq<Token>)
    requires |items| == 1
    ensures SpellItems(items) + rest == Spell(items[0]) + rest
  {
    hide Spell;
  }

  lemma ItemsMore(items: seq<Tree>, rest: seq<Token>)
    requires |items| > 1
    ensures SpellItems(items) + rest == Spell(items[0]) + ([COMMA] + (SpellItems(items[1..]) + rest))
  {
    hide Spell;
    Regroup(Spell(items[0]) + [COMMA], SpellItems(items[1..]), rest);
    Regroup(Spell(items[0]), [COMMA], SpellItems(items[1..]) + rest);
  }

  // ---------------------------------------------------------------- and nothing else is

  /** Punctuation has one spelling. */
  ghost predicate Canonical(t: Token) {
    && (t.kind == TBraceOpen ==> t == BraceToken)
    && (t.kind == TBraceClose ==> t == BRACE_CLOSE)
    && (t.kind == TBracketOpen ==> t == BracketToken)
    && (t.kind == TBracketClose ==> t == BRACKET_CLOSE)
    && (t.kind == TColon ==> t == COLON)
    && (t.kind == TComma ==> t == COMMA)
  }

  ghost predicate AllCanonical(ts: seq<Token>) {
    forall i :: 0 <= i < |ts| ==> Canonical(ts[i])
  }

  lemma CanonicalHead(ts: seq<Token>)
    requires AllCanonical(ts) && ts != []
    ensures Canonical(ts[0]) && AllCanonical(ts[1..]) && ts == [ts[0]] + ts[1..] && Head(ts) == ts[0]
  {
    hide Canonical;
  }

  lemma CanonicalTail(a: seq<Token>, b: seq<Token>)
    requires AllCanonical(a + b)
    ensures AllCanonical(b)
  {
    hide Canonical;
    forall i | 0 <= i < |b| ensures Canonical(b[i]) {
      assert (a + b)[|a| + i] == b[i];
    }
  }

  /** What is read is spelled at the front of the tokens. */
  lemma {:induction false} OnlySpellings(ts: seq<Token>)
    requires AllCanonical(ts) && ParseValue(ts).Parsed?
    ensures Doc(ParseValue(ts).value) && ts == Spell(ParseValue(ts).value) + ParseValue(ts).rest
    decreases |ts|, 1
  {
    hide ParseMembers;
    hide ParseElements;
    hide SpellMembers;
    hide SpellItems;
    hide AllCanonical;
    CanonicalHead(ts);
    var k := ts[0].kind;
    if k == TBraceOpen {
      OnlyObjects(ts);
    } else if k == TBracketOpen {
      OnlyArrays(ts);
    }
  }

  lemma {:induction false} OnlyObjects(ts: seq<Token>)
    requires AllCanonical(ts) && ts != [] && ts[0].kind == TBraceOpen && ParseObject(ts).Parsed?
    ensures var t := ParseObject(ts).value; Doc(t) && ts == Spell(t) + ParseObject(ts).rest
    decreases |ts|, 0
  {
    hide ParseMembers;
    hide SpellMembers;
    hide AllCanonical;
    CanonicalHead(ts);
    var ts1 := ts[1..];
    var t, rest := ParseObject(ts).value, ParseObject(ts).rest;
    if Head(ts1).kind == TBraceClose {
      CanonicalHead(ts1);
      NoMembers();
      assert [BraceToken] + [] + [BRACE_CLOSE] == [BraceToken, BRACE_CLOSE];
    } else {
      var r := ParseMembers(ts1).rest;
      OnlyMembers(ts1);
      CanonicalTail(SpellMembers(t.members), r);
      CanonicalHead(r);
      Regroup([BraceToken], SpellMembers(t.members), [BRACE_CLOSE] + rest);
      Regroup([BraceToken] + SpellMembers(t.members), [BRACE_CLOSE], rest);
    }
  }

  lemma {:induction false} OnlyMembers(ts: seq<Token>)
    requires AllCanonical(ts) && ParseMembers(ts).Parsed?
    ensures var ms := ParseMembers(ts).value;
            && ms != [] && (forall i :: 0 <= i < |ms| ==> DocMember(ms[i]))
            && ts == SpellMembers(ms) + ParseMembers(ts).rest
    decreases |ts|, 3
  {
    hide ParsePair;
    hide Spell;
    hide SpellMembers;
    hide DocMember;
    hide AllCanonical;
    var m, rest := ParsePair(ts).value, ParsePair(ts).rest;
    OnlyPairs(ts);
    var pair := [m.key, COLON] + Spell(m.val);
    CanonicalTail(pair, rest);
    var ms, rest2 := ParseMoreMembers(rest).value, ParseMoreMembers(rest).rest;
    if Head(rest).kind == TComma {
      CanonicalHead(rest);
      OnlyMembers(rest[1..]);
      MembersMore([m] + ms, rest2);
      assert ([m] + ms)[1..] == ms;
    } else {
      MembersOne([m], rest);
      assert [m] + [] == [m];
    }
  }

  lemma {:induction false} OnlyPairs(ts: seq<Token>)
    requires AllCanonical(ts) && ParsePair(ts).Parsed?
    ensures var m := ParsePair(ts).value;
            DocMember(m) && ts == [m.key, COLON] + Spell(m.val) + ParsePair(ts).rest
    decreases |ts|, 2
  {
    hide ParseValue;
    hide Spell;
    hide Doc;
    hide AllCanonical;
    CanonicalHead(ts);
    CanonicalHead(ts[1..]);
    assert ts[1..][1..] == ts[2..];
    OnlySpellings(ts[2..]);
    var v := ParsePair(ts).value.val;
    Regroup([ts[0], COLON], Spell(v), ParsePair(ts).rest);
    assert ts == [ts[0], COLON] + ts[2..];
  }

  lemma {:induction false} OnlyArrays(ts: seq<Token>)
    requires AllCanonical(ts) && ts != [] && ts[0].kind == TBracketOpen && ParseArray(ts).Parsed?
    ensures var t := ParseArray(ts).value; Doc(t) && ts == Spell(t) + ParseArray(ts).rest
    decreases |ts|, 0
  {
    hide ParseElements;
    hide SpellItems;
    hide AllCanonical;
    CanonicalHead(ts);
    var ts1 := ts[1..];
    var t, rest := ParseArray(ts).value, ParseArray(ts).rest;
    if Head(ts1).kind == TBracketClose {
      CanonicalHead(ts1);
      NoMembers();
      assert [BracketToken] + [] + [BRACKET_CLOSE] == [BracketToken, BRACKET_CLOSE];
    } else {
      var r := ParseElements(ts1).rest;
      OnlyItems(ts1);
      CanonicalTail(SpellItems(t.items), r);
      CanonicalHead(r);
      Regroup([BracketToken], SpellItems(t.items), [BRACKET_CLOSE] + rest);
      Regroup([BracketToken] + SpellItems(t.items), [BRACKET_CLOSE], rest);
    }
  }

  lemma {:induction false} OnlyItems(ts: seq<Token>)
    requires AllCanonical(ts) && ParseElements(ts).Parsed?
    ensures var items := ParseElements(ts).value;
            && items != [] && (forall i :: 0 <= i < |items| ==> Doc(items[i]))
            && ts == SpellItems(items) + ParseElements(ts).rest
    decreases |ts|, 3
  {
    hide ParseValue;
    hide Spell;
    hide SpellItems;
    hide Doc;
    hide AllCanonical;
    var v, rest := ParseValue(ts).value, ParseValue(ts).rest;
    OnlySpellings(ts);
    CanonicalTail(Spell(v), rest);
    var items, rest2 := ParseMoreElements(rest).value, ParseMoreElements(rest).rest;
    if Head(rest).kind == TComma {
      CanonicalHead(rest);
      OnlyItems(rest[1..]);
      ItemsMore([v] + items, rest2);
      assert ([v] + items)[1..] == items;
    } else {
      ItemsOne([v], rest);
      assert [v] + [] == [v];
    }
  }

  /** Tokens spell a value exactly when reading them leaves nothing over. */
  lemma GrammarExact(ts: seq<Token>)
    requires AllCanonical(ts)
    ensures (exists t: Tree :: Doc(t) && Spell(t) == ts) <==> ParseValue(ts).Parsed? && ParseValue(ts).rest == []
    ensures forall t: Tree :: Doc(t) && Spell(t) == ts ==> ParseValue(ts) == Parsed(t, [])
  {
    hide *;
    forall t: Tree | Doc(t) && Spell(t) == ts ensures ParseValue(ts) == Parsed(t, []) {
      ReadBack(t, []);
      assert Spell(t) + [] == ts;
    }
    if ParseValue(ts).Parsed? && ParseValue(ts).rest == [] {
      OnlySpellings(ts);
      var t := ParseValue(ts).value;
      assert Spell(t) + [] == Spell(t);
    }
  }
}
