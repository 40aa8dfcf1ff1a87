/** The event parser (src/parser/sax.c) with callbacks that always continue, and what it
    reports. */
module Sax {
  import opened Bytes
  import opened Ast
  import opened Lexing
  import opened Grammar
  import opened KeyTree
  import opened PoolShape
  import opened Parsing
  import opened Parser
  import opened TextGrammar
  import opened Frontend
  import opened SaxEvents
  import opened Rendering

  // ---------------------------------------------------------------- the parser

  /** The current token and the input behind it. */
  ghost predicate Current(src: bytes, pos: nat, c: Token, ts: seq<Token>) {
    && pos <= |src|
    && c == Head(ts)
    && (c.kind != TError ==> Tokens(src, pos) == Rest(ts))
  }

  lemma CurrentNext(src: bytes, pos: nat, c: Token, ts: seq<Token>, tok: Token, next: nat)
    requires Current(src, pos, c, ts) && c.kind != TError && next <= |src|
    requires tok == match Lex(src, pos)
                    case EndOfInput => END_TOKEN
                    case BadToken => BAD_TOKEN
                    case Good(t, _) => t
    requires match Lex(src, pos)
             case EndOfInput => next == |src|
             case BadToken => true
             case Good(_, e) => next == e
    ensures Current(src, next, tok, Rest(ts))
  {
    hide Lex;
    TokensNext(src, pos);
    GoodKinds(src, pos);
  }

  /** Reading a value stopped before a good token, within the depth limit. */
  ghost predicate Done(p: Parsed<Tree>, depth: nat) {
    p.Parsed? && depth + ValueDepth(p.value) <= MAX_SAX_DEPTH && Head(p.rest).kind != TError
  }

  class SaxParser {
    const lexer: Lexer
    var tok: Token
    var events: seq<Event>

    ghost predicate At(ts: seq<Token>)
      reads this, lexer
    {
      lexer.Valid() && Current(lexer.source, lexer.pos, tok, ts)
    }

    constructor (src: bytes)
      ensures fresh(lexer) && lexer.source == src && lexer.pos == StartOf(src) && lexer.Valid() && events == []
    {
      lexer := new Lexer(src);
      tok := END_TOKEN;
      events := [];
    }

    /** `sax_advance`. */
    method Advance(ghost ts: seq<Token>) returns (ok: bool)
      requires At(ts) && tok.kind != TError
      modifies this`tok, lexer
      ensures At(Rest(ts)) && ok == (tok.kind != TError)
    {
      hide Current;
      hide Lex;
      ghost var pos := lexer.pos;
      ghost var c := tok;
      CurrentBound(lexer.source, pos, c, ts);
      tok := lexer.NextToken();
      CurrentNext(lexer.source, pos, c, ts, tok, lexer.pos);
      ok := tok.kind != TError;
    }
  }

  lemma CurrentBound(src: bytes, pos: nat, c: Token, ts: seq<Token>)
    requires Current(src, pos, c, ts)
    ensures pos <= |src| && c == Head(ts)
  {
    hide Tokens;
  }

  /** `sax_parse_value`. */
  method SaxValue(p: SaxParser, depth: nat, ghost ts: seq<Token>) returns (ok: bool)
    requires p.At(ts) && p.tok.kind != TError
    modifies p, p.lexer
    ensures ok == Done(ParseValue(ts), depth)
    ensures ok ==> p.At(ParseValue(ts).rest) && p.tok.kind != TError && p.events == old(p.events) + Events(ParseValue(ts).value)
    decreases |ts|, 1
  {
    hide Current;
    hide ParseObject;
    hide ParseArray;
    hide Events;
    CurrentBound(p.lexer.source, p.lexer.pos, p.tok, ts);
    if depth > MAX_SAX_DEPTH {
      return false;
    }
    var k := p.tok.kind;
    if LiteralKind(k) {
      LeafForms(ts[0]);
      p.events := p.events + [LeafEvent(p.tok)];
      ok := p.Advance(ts);
      CurrentBound(p.lexer.source, p.lexer.pos, p.tok, Rest(ts));
    } else if k == TBraceOpen {
      ok := SaxObject(p, depth, ts);
    } else if k == TBracketOpen {
      ok := SaxArray(p, depth, ts);
    } else {
      ok := false;
    }
  }

  lemma LeafForms(tok: Token)
    ensures Events(Leaf(false, tok)) == [LeafEvent(tok)] && ValueDepth(Leaf(false, tok)) == 0
  {
  }

  /** The members read so far are `acc`; the rest of them start at `cur`. */
  ghost predicate MembersSoFar(ts: seq<Token>, acc: seq<Member>, cur: seq<Token>) {
    |cur| <= |ts| &&
    ParseMembers(ts) == match ParseMoreMembers(cur)
                        case NoParse => NoParse
                        case Parsed(ms, rest) => Parsed(acc + ms, rest)
  }

  ghost predicate AtPair(ts: seq<Token>, acc: seq<Member>, cur: seq<Token>) {
    |cur| <= |ts| &&
    ParseMembers(ts) == match ParseMembers(cur)
                        case NoParse => NoParse
                        case Parsed(ms, rest) => Parsed(acc + ms, rest)
  }

  lemma AtPairStart(ts: seq<Token>)
    ensures AtPair(ts, [], ts)
  {
    hide ParseMembers;
    if ParseMembers(ts).Parsed? {
      assert [] + ParseMembers(ts).value == ParseMembers(ts).value;
    }
  }

  lemma AtPairRead(ts: seq<Token>, acc: seq<Member>, cur: seq<Token>, m: Member, rest: seq<Token>)
    requires AtPair(ts, acc, cur) && ParsePair(cur) == Parsed(m, rest)
    ensures MembersSoFar(ts, acc + [m], rest)
  {
    hide ParsePair;
    hide ParseMoreMembers;
    if ParseMoreMembers(rest).Parsed? {
      Regroup(acc, [m], ParseMoreMembers(rest).value);
    }
  }

  lemma AtPairComma(ts: seq<Token>, acc: seq<Member>, cur: seq<Token>)
    requires MembersSoFar(ts, acc, cur) && Head(cur).kind == TComma
    ensures AtPair(ts, acc, Rest(cur)) && |Rest(cur)| < |cur|
  {
    hide ParseMembers;
  }

  lemma AtPairBroken(ts: seq<Token>, acc: seq<Member>, cur: seq<Token>)
    requires AtPair(ts, acc, cur) && ParsePair(cur).NoParse?
    ensures ParseMembers(ts).NoParse?
  {
    hide ParsePair;
  }

  lemma MembersSoFarEnd(ts: seq<Token>, acc: seq<Member>, cur: seq<Token>)
    requires MembersSoFar(ts, acc, cur) && Head(cur).kind != TComma
    ensures ParseMembers(ts) == Parsed(acc, cur)
  {
    hide ParseMembers;
    assert acc + [] == acc;
  }

  /** A value too deep inside makes the whole too deep. */
  lemma MembersSoFarDeep(ts: seq<Token>, acc: seq<Member>, cur: seq<Token>)
    requires MembersSoFar(ts, acc, cur) && ParseMembers(ts).Parsed?
    ensures DepthMembers(ParseMembers(ts).value) >= DepthMembers(acc)
  {
    hide ParseMembers;
    hide ParseMoreMembers;
    hide DepthMembers;
    MemberEventsAppend(acc, ParseMoreMembers(cur).value);
  }

  /** The items read so far are `acc`; the rest of them start at `cur`. */
  ghost predicate ItemsSoFar(ts: seq<Token>, acc: seq<Tree>, cur: seq<Token>) {
    |cur| <= |ts| &&
    ParseElements(ts) == match ParseMoreElements(cur)
                         case NoParse => NoParse
                         case Parsed(ms, rest) => Parsed(acc + ms, rest)
  }

  ghost predicate AtItem(ts: seq<Token>, acc: seq<Tree>, cur: seq<Token>) {
    |cur| <= |ts| &&
    ParseElements(ts) == match ParseElements(cur)
                        case NoParse => NoParse
                        case Parsed(ms, rest) => Parsed(acc + ms, rest)
  }

  lemma AtItemStart(ts: seq<Token>)
    ensures AtItem(ts, [], ts)
  {
    hide ParseElements;
    if ParseElements(ts).Parsed? {
      assert [] + ParseElements(ts).value == ParseElements(ts).value;
    }
  }

  lemma AtItemRead(ts: seq<Token>, acc: seq<Tree>, cur: seq<Token>, m: Tree, rest: seq<Token>)
    requires AtItem(ts, acc, cur) && ParseValue(cur) == Parsed(m, rest)
    ensures ItemsSoFar(ts, acc + [m], rest)
  {
    hide ParseValue;
    hide ParseMoreElements;
    if ParseMoreElements(rest).Parsed? {
      Regroup(acc, [m], ParseMoreElements(rest).value);
    }
  }

  lemma AtItemComma(ts: seq<Token>, acc: seq<Tree>, cur: seq<Token>)
    requires ItemsSoFar(ts, acc, cur) && Head(cur).kind == TComma
    ensures AtItem(ts, acc, Rest(cur)) && |Rest(cur)| < |cur|
  {
    hide ParseElements;
  }

  lemma AtItemBroken(ts: seq<Token>, acc: seq<Tree>, cur: seq<Token>)
    requires AtItem(ts, acc, cur) && ParseValue(cur).NoParse?
    ensures ParseElements(ts).NoParse?
  {
    hide ParseValue;
  }

  lemma ItemsSoFarEnd(ts: seq<Token>, acc: seq<Tree>, cur: seq<Token>)
    requires ItemsSoFar(ts, acc, cur) && Head(cur).kind != TComma
    ensures ParseElements(ts) == Parsed(acc, cur)
  {
    hide ParseElements;
    assert acc + [] == acc;
  }

  /** A value too deep inside makes the whole too deep. */
  lemma ItemsSoFarDeep(ts: seq<Token>, acc: seq<Tree>, cur: seq<Token>)
    requires ItemsSoFar(ts, acc, cur) && ParseElements(ts).Parsed?
    ensures DepthItems(ParseElements(ts).value) >= DepthItems(acc)
  {
    hide ParseElements;
    hide ParseMoreElements;
    hide DepthItems;
    ItemEventsAppend(acc, ParseMoreElements(cur).value);
  }

  lemma ObjectForms(ts: seq<Token>)
    requires ts != []
    ensures Head(Rest(ts)).kind == TBraceClose ==> ParseObject(ts) == Parsed(Obj(false, []), Rest(Rest(ts)))
    ensures Head(Rest(ts)).kind != TBraceClose ==>
              ParseObject(ts) == match ParseMembers(Rest(ts))
                                 case NoParse => NoParse
                                 case Parsed(ms, rest) => if Head(rest).kind == TBraceClose then Parsed(Obj(false, ms), Rest(rest)) else NoParse
    ensures forall ms: seq<Member> :: Events(Obj(false, ms)) == [BeginObject] + MemberEvents(ms) + [EndObject]
    ensures forall ms: seq<Member> :: ValueDepth(Obj(false, ms)) == DepthMembers(ms)
  {
    hide ParseMembers;
    hide MemberEvents;
    hide DepthMembers;
  }

  lemma PairForms(ts: seq<Token>)
    ensures ParsePair(ts) == if Head(ts).kind != TString || Head(Rest(ts)).kind != TColon then NoParse
                             else match ParseValue(Rest(Rest(ts)))
                                  case NoParse => NoParse
                                  case Parsed(v, rest) => Parsed(Member(ts[0], false, v), rest)
    ensures |Rest(Rest(ts))| <= |ts|
    ensures Head(ts).kind == TString ==> ts != []
    ensures |ts| > 0 ==> |Rest(Rest(ts))| < |ts|
  {
    hide ParseValue;
    if Head(ts).kind == TString && Head(ts[1..]).kind == TColon {
      assert ts[2..] == Rest(Rest(ts));
    }
  }

  /** A key, a colon and a value; the current token is the key. */
  method SaxPair(p: SaxParser, depth: nat, ghost ts: seq<Token>) returns (ok: bool)
    requires p.At(ts) && p.tok.kind != TError
    modifies p, p.lexer
    ensures ok == (ParsePair(ts).Parsed? && depth + 1 + ValueDepth(ParsePair(ts).value.val) <= MAX_SAX_DEPTH
                   && Head(ParsePair(ts).rest).kind != TError)
    ensures ok ==> p.At(ParsePair(ts).rest) && p.tok.kind != TError
                   && p.events == old(p.events) + MemberEvents([ParsePair(ts).value])
    decreases |ts|, 2
  {
    hide Current;
    hide ParseValue;
    hide ParsePair;
    hide MemberEvents;
    hide Events;
    hide ValueDepth;
    CurrentBound(p.lexer.source, p.lexer.pos, p.tok, ts);
    PairForms(ts);
    if p.tok.kind != TString {
      return false;
    }
    ghost var before := p.events;
    var key := p.tok;
    p.events := p.events + [OnKey(key.raw)];
    ok := p.Advance(ts);
    CurrentBound(p.lexer.source, p.lexer.pos, p.tok, Rest(ts));
    if !ok {
      return false;
    }
    if p.tok.kind != TColon {
      return false;
    }
    ok := p.Advance(Rest(ts));
    CurrentBound(p.lexer.source, p.lexer.pos, p.tok, Rest(Rest(ts)));
    if !ok {
      BadValue(Rest(Rest(ts)));
      return false;
    }
    ok := SaxValue(p, depth + 1, Rest(Rest(ts)));
    if ok {
      SingleMember(ParsePair(ts).value);
      Regroup(before, [OnKey(key.raw)], Events(ParsePair(ts).value.val));
    }
  }

  lemma BadValue(ts: seq<Token>)
    requires Head(ts).kind == TError
    ensures ParseValue(ts).NoParse? && ParsePair(ts).NoParse?
  {
  }

  /** Why a member that cannot be read ends the object. */
  lemma PairFails(ts: seq<Token>, acc: seq<Member>, cur: seq<Token>, depth: nat)
    requires ts != [] && Head(Rest(ts)).kind != TBraceClose && AtPair(Rest(ts), acc, cur)
    requires !(ParsePair(cur).Parsed? && depth + 1 + ValueDepth(ParsePair(cur).value.val) <= MAX_SAX_DEPTH
               && Head(ParsePair(cur).rest).kind != TError)
    ensures !Done(ParseObject(ts), depth)
  {
    hide ParsePair;
    hide ParseMembers;
    hide AtPair;
    hide MembersSoFar;
    hide DepthMembers;
    hide MemberEvents;
    hide Events;
    hide ValueDepth;
    ObjectForms(ts);
    if ParsePair(cur).NoParse? {
      AtPairBroken(Rest(ts), acc, cur);
    } else {
      var m, rest := ParsePair(cur).value, ParsePair(cur).rest;
      AtPairRead(Rest(ts), acc, cur, m, rest);
      if Head(rest).kind == TError {
        MembersSoFarEnd(Rest(ts), acc + [m], rest);
      } else if ParseMembers(Rest(ts)).Parsed? {
        MembersSoFarDeep(Rest(ts), acc + [m], rest);
        MemberEventsAppend(acc, [m]);
        SingleMember(m);
      }
    }
  }

  /** `sax_parse_object`. */
  method SaxObject(p: SaxParser, depth: nat, ghost ts: seq<Token>) returns (ok: bool)
    requires p.At(ts) && ts != [] && p.tok.kind == TBraceOpen && depth <= MAX_SAX_DEPTH
    modifies p, p.lexer
    ensures ok == Done(ParseObject(ts), depth)
    ensures ok ==> p.At(ParseObject(ts).rest) && p.tok.kind != TError && p.events == old(p.events) + Events(ParseObject(ts).value)
    decreases |ts|, 0
  {
    hide Current;
    hide Tokens;
    hide Lex;
    hide ParseValue;
    hide ParseObject;
    hide ParseMembers;
    hide ParsePair;
    hide AtPair;
    hide MembersSoFar;
    hide Events;
    hide MemberEvents;
    hide DepthMembers;
    hide ValueDepth;
    ghost var before := p.events;
    ghost var ts1 := Rest(ts);
    ObjectForms(ts);
    SingleMember(Member(COMMA, false, Leaf(false, COMMA)));
    p.events := p.events + [BeginObject];
    ok := p.Advance(ts);
    CurrentBound(p.lexer.source, p.lexer.pos, p.tok, ts1);
    AtPairStart(ts1);
    if !ok {
      BadValue(ts1);
      AtPairBroken(ts1, [], ts1);
      return false;
    }
    var first := true;
    ghost var acc: seq<Member> := [];
    ghost var cur := ts1;
    assert [BeginObject] + [] == [BeginObject];
    while p.tok.kind != TBraceClose
      invariant p.At(cur) && p.tok.kind != TError && p.tok == Head(cur)
      invariant first ==> acc == [] && cur == ts1
      invariant !first ==> MembersSoFar(ts1, acc, cur) && Head(ts1).kind != TBraceClose
      invariant |cur| <= |ts1| && (first ==> DepthMembers(acc) == 0 && MemberEvents(acc) == [])
      invariant depth + DepthMembers(acc) <= MAX_SAX_DEPTH
      invariant p.events == before + ([BeginObject] + MemberEvents(acc))
      decreases |cur|
    {
      if !first {
        if p.tok.kind != TComma {
          MembersSoFarEnd(ts1, acc, cur);
          return false;
        }
        AtPairComma(ts1, acc, cur);
        ok := p.Advance(cur);
        cur := Rest(cur);
        CurrentBound(p.lexer.source, p.lexer.pos, p.tok, cur);
        PairForms(cur);
        if !ok {
          AtPairBroken(ts1, acc, cur);
          return false;
        }
        if p.tok.kind == TBraceClose {
          AtPairBroken(ts1, acc, cur);
          return false;
        }
      }
      first := false;
      ok := SaxPair(p, depth, cur);
      if !ok {
        PairFails(ts, acc, cur, depth);
        return false;
      }
      ghost var m := ParsePair(cur).value;
      AtPairRead(ts1, acc, cur, m, ParsePair(cur).rest);
      MemberEventsAppend(acc, [m]);
      SingleMember(m);
      Regroup([BeginObject], MemberEvents(acc), MemberEvents([m]));
      Regroup(before, [BeginObject] + MemberEvents(acc), MemberEvents([m]));
      cur := ParsePair(cur).rest;
      acc := acc + [m];
      CurrentBound(p.lexer.source, p.lexer.pos, p.tok, cur);
    }
    if !first {
      MembersSoFarEnd(ts1, acc, cur);
    }
    Regroup(before, [BeginObject] + MemberEvents(acc), [EndObject]);
    p.events := p.events + [EndObject];
    ok := p.Advance(cur);
    CurrentBound(p.lexer.source, p.lexer.pos, p.tok, Rest(cur));
  }

  lemma ArrayForms(ts: seq<Token>)
    requires ts != []
    ensures Head(Rest(ts)).kind == TBracketClose ==> ParseArray(ts) == Parsed(Arr(false, []), Rest(Rest(ts)))
    ensures Head(Rest(ts)).kind != TBracketClose ==>
              ParseArray(ts) == match ParseElements(Rest(ts))
                                case NoParse => NoParse
                                case Parsed(ms, rest) => if Head(rest).kind == TBracketClose then Parsed(Arr(false, ms), Rest(rest)) else NoParse
    ensures forall ms: seq<Tree> :: Events(Arr(false, ms)) == [BeginArray] + ItemEvents(ms) + [EndArray]
    ensures forall ms: seq<Tree> :: ValueDepth(Arr(false, ms)) == DepthItems(ms)
  {
    hide ParseElements;
    hide ItemEvents;
    hide DepthItems;
  }

  lemma ItemFails(ts: seq<Token>, acc: seq<Tree>, cur: seq<Token>, depth: nat)
    requires ts != [] && Head(Rest(ts)).kind != TBracketClose && AtItem(Rest(ts), acc, cur)
    requires !Done(ParseValue(cur), depth + 1)
    ensures !Done(ParseArray(ts), depth)
  {
    hide ParseValue;
    hide ParseElements;
    hide AtItem;
    hide ItemsSoFar;
    hide DepthItems;
    hide ItemEvents;
    hide Events;
    hide ValueDepth;
    ArrayForms(ts);
    if ParseValue(cur).NoParse? {
      AtItemBroken(Rest(ts), acc, cur);
    } else {
      var x, rest := ParseValue(cur).value, ParseValue(cur).rest;
      AtItemRead(Rest(ts), acc, cur, x, rest);
      if Head(rest).kind == TError {
        ItemsSoFarEnd(Rest(ts), acc + [x], rest);
      } else if ParseElements(Rest(ts)).Parsed? {
        ItemsSoFarDeep(Rest(ts), acc + [x], rest);
        ItemEventsAppend(acc, [x]);
        SingleItem(x);
      }
    }
  }

  /** `sax_parse_array`. */
  method SaxArray(p: SaxParser, depth: nat, ghost ts: seq<Token>) returns (ok: bool)
    requires p.At(ts) && ts != [] && p.tok.kind == TBracketOpen && depth <= MAX_SAX_DEPTH
    modifies p, p.lexer
    ensures ok == Done(ParseArray(ts), depth)
    ensures ok ==> p.At(ParseArray(ts).rest) && p.tok.kind != TError && p.events == old(p.events) + Events(ParseArray(ts).value)
    decreases |ts|, 0
  {
    hide Current;
    hide ParseArray;
    hide ParseElements;
    hide ParseValue;
    hide AtItem;
    hide ItemsSoFar;
    hide Events;
    hide ItemEvents;
    hide DepthItems;
    hide ValueDepth;
    ghost var before := p.events;
    ghost var ts1 := Rest(ts);
    ArrayForms(ts);
    SingleItem(Leaf(false, COMMA));
    p.events := p.events + [BeginArray];
    ok := p.Advance(ts);
    CurrentBound(p.lexer.source, p.lexer.pos, p.tok, ts1);
    AtItemStart(ts1);
    if !ok {
      BadValue(ts1);
      AtItemBroken(ts1, [], ts1);
      return false;
    }
    var first := true;
    ghost var acc: seq<Tree> := [];
    ghost var cur := ts1;
    assert [BeginArray] + [] == [BeginArray];
    while p.tok.kind != TBracketClose
      invariant p.At(cur) && p.tok.kind != TError && p.tok == Head(cur)
      invariant first ==> acc == [] && cur == ts1
      invariant !first ==> ItemsSoFar(ts1, acc, cur) && Head(ts1).kind != TBracketClose
      invariant |cur| <= |ts1| && (first ==> DepthItems(acc) == 0 && ItemEvents(acc) == [])
      invariant depth + DepthItems(acc) <= MAX_SAX_DEPTH
      invariant p.events == before + ([BeginArray] + ItemEvents(acc))
      decreases |cur|
    {
      if !first {
        if p.tok.kind != TComma {
          ItemsSoFarEnd(ts1, acc, cur);
          return false;
        }
        AtItemComma(ts1, acc, cur);
        ok := p.Advance(cur);
        cur := Rest(cur);
        CurrentBound(p.lexer.source, p.lexer.pos, p.tok, cur);
        NotAValue(cur);
        if !ok {
          AtItemBroken(ts1, acc, cur);
          return false;
        }
        if p.tok.kind == TBracketClose {
          AtItemBroken(ts1, acc, cur);
          return false;
        }
      }
      first := false;
      ok := SaxValue(p, depth + 1, cur);
      if !ok {
        ItemFails(ts, acc, cur, depth);
        return false;
      }
      ghost var x := ParseValue(cur).value;
      AtItemRead(ts1, acc, cur, x, ParseValue(cur).rest);
      ItemEventsAppend(acc, [x]);
      SingleItem(x);
      Regroup([BeginArray], ItemEvents(acc), ItemEvents([x]));
      Regroup(before, [BeginArray] + ItemEvents(acc), ItemEvents([x]));
      cur := ParseValue(cur).rest;
      acc := acc + [x];
      CurrentBound(p.lexer.source, p.lexer.pos, p.tok, cur);
    }
    if !first {
      ItemsSoFarEnd(ts1, acc, cur);
    }
    Regroup(before, [BeginArray] + ItemEvents(acc), [EndArray]);
    p.events := p.events + [EndArray];
    ok := p.Advance(cur);
    CurrentBound(p.lexer.source, p.lexer.pos, p.tok, Rest(cur));
  }

  lemma NotAValue(ts: seq<Token>)
    ensures Head(ts).kind == TError || Head(ts).kind == TBracketClose ==> ParseValue(ts).NoParse?
  {
  }

  /** `jsonv_parse_sax`: it succeeds exactly when the text is one for a value none of whose
      parts lies in more than 64 containers, and then reports that value: the events, written
      out again, are a text of it. */
  method ParseSax(src: bytes) returns (ok: bool, events: seq<Event>)
    ensures ok <==> exists t: Tree :: IsTextOf(src, t) && ValueDepth(t) <= 64
    ensures ok ==> forall t: Tree :: IsTextOf(src, t) ==> events == Events(t) && IsTextOf(Render(events), t)
  {
    hide Current;
    hide Render;
    hide ParseValue;
    hide Tokens;
    hide IsTextOf;
    hide Events;
    hide ValueDepth;
    hide Lex;
    events := [];
    TextRead(src);
    ghost var ts := Tokens(src, StartOf(src));
    TokenKinds(src, StartOf(src));
    NoTokens(src);
    if |src| == 0 {
      return false, [];
    }
    var p := new SaxParser(src);
    p.tok := p.lexer.NextToken();
    CurrentStart(src, p.lexer.pos, p.tok);
    CurrentBound(src, p.lexer.pos, p.tok, ts);
    if p.tok.kind == TError {
      BadValue(ts);
      return false, [];
    }
    ok := SaxValue(p, 0, ts);
    if ok {
      CurrentBound(src, p.lexer.pos, p.tok, ParseValue(ts).rest);
      SuffixKinds(ts);
      EofAlone(ParseValue(ts).rest);
      ok := p.tok.kind == TEof;
    } else {
      NoErrorHead();
    }
    events := p.events;
    if ok {
      AllRendered(src, events, ParseValue(ts).value);
    }
  }

  /** The text has one value, and its events are a text of it. */
  lemma AllRendered(src: bytes, events: seq<Event>, t: Tree)
    requires IsTextOf(src, t) && events == Events(t)
    ensures forall u: Tree :: IsTextOf(src, u) ==> events == Events(u) && IsTextOf(Render(events), u)
  {
    hide *;
    forall u: Tree | IsTextOf(src, u) ensures u == t {
      TextUnique(src, t, u);
    }
    RenderedText(src, t);
  }

  lemma NoErrorHead()
    ensures Head([]).kind != TError
  {
  }

  lemma NoTokens(src: bytes)
    ensures |src| == 0 ==> ParseValue(Tokens(src, StartOf(src))).NoParse?
  {
    hide LexAt;
    if |src| == 0 {
      assert Tokens(src, StartOf(src)) == [];
    }
  }

  lemma CurrentStart(src: bytes, next: nat, tok: Token)
    requires next <= |src|
    requires tok == match Lex(src, StartOf(src))
                    case EndOfInput => END_TOKEN
                    case BadToken => BAD_TOKEN
                    case Good(t, _) => t
    requires match Lex(src, StartOf(src))
             case EndOfInput => next == |src|
             case BadToken => true
             case Good(_, e) => next == e
    ensures Current(src, next, tok, Tokens(src, StartOf(src)))
  {
    hide Lex;
    AheadStart(src, StartOf(src), tok, next);
  }
}
