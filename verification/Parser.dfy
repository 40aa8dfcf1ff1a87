/** The explicit-stack parser, `parse_ast` (src/parser/parser.c). The three stacks are
    sequences; `RAISE` is a false answer. */
module Parser {
  import opened Bytes
  import opened Ast
  import opened Unescape
  import opened Keywords
  import opened Lexing
  import opened Grammar
  import opened KeyTree
  import opened KeySet
  import opened ScopedKeys
  import opened Building
  import opened Parsing

  // ---------------------------------------------------------------- the token stream

  lemma TokensNext(s: bytes, p: nat)
    requires p <= |s|
    ensures match Lex(s, p)
            case EndOfInput => Tokens(s, p) == [] && Tokens(s, |s|) == []
            case BadToken => Tokens(s, p) == [BAD_TOKEN]
            case Good(t, next) => next <= |s| && Tokens(s, p) == [t] + Tokens(s, next)
  {
    hide LexAt;
  }

  /** Good tokens are not the two artificial ones. */
  lemma GoodKinds(s: bytes, p: nat)
    requires p <= |s|
    ensures Lex(s, p).Good? ==> Lex(s, p).tok.kind != TEof && Lex(s, p).tok.kind != TError && Canonical(Lex(s, p).tok)
  {
    hide StringEnd;
    hide NumberEnd;
    hide WordAt;
    hide SkipSpaces;
  }

  lemma {:induction false} TokenKinds(s: bytes, p: nat)
    requires p <= |s|
    ensures forall i :: 0 <= i < |Tokens(s, p)| ==> Tokens(s, p)[i].kind != TEof
    ensures AllCanonical(Tokens(s, p))
    decreases |s| - p
  {
    hide Lex;
    hide Canonical;
    GoodKinds(s, p);
    BadIsCanonical();
    if Lex(s, p).Good? {
      TokenKinds(s, Lex(s, p).next);
    }
  }

  lemma BadIsCanonical()
    ensures Canonical(BAD_TOKEN) && BAD_TOKEN.kind == TError
  {
  }

  /** `c` and `n` are the next two tokens, unless one of them is malformed. */
  ghost predicate Ahead(src: bytes, pos: nat, c: Token, n: Token, ts: seq<Token>) {
    && pos <= |src|
    && c == Head(ts)
    && (c.kind != TError ==> n == Head(Rest(ts)) && (n.kind != TError ==> Tokens(src, pos) == Rest(Rest(ts))))
  }

  lemma AheadMeans(src: bytes, pos: nat, c: Token, n: Token, ts: seq<Token>)
    requires Ahead(src, pos, c, n, ts)
    ensures pos <= |src| && c == Head(ts) && (c.kind != TError ==> n == Head(Rest(ts)))
    ensures ts == [] ==> c == END_TOKEN && n == END_TOKEN
  {
    hide Tokens;
  }

  lemma AheadNext(src: bytes, pos: nat, c: Token, n: Token, ts: seq<Token>, tok: Token, next: nat)
    requires Ahead(src, pos, c, n, ts) && c.kind != TError && next <= |src|
    requires tok == match Lex(src, pos)
                    case EndOfInput => END_TOKEN
                    case BadToken => BAD_TOKEN
                    case Good(t, _) => t
    requires match Lex(src, pos)
             case EndOfInput => next == |src|
             case BadToken => true
             case Good(_, e) => next == e
    ensures Ahead(src, next, n, tok, Rest(ts))
  {
    hide Lex;
    TokensNext(src, pos);
    GoodKinds(src, pos);
  }

  lemma AheadStart(src: bytes, p: nat, c: Token, q: nat)
    requires p <= |src| && q <= |src|
    requires c == match Lex(src, p)
                  case EndOfInput => END_TOKEN
                  case BadToken => BAD_TOKEN
                  case Good(t, _) => t
    requires match Lex(src, p)
             case EndOfInput => q == |src|
             case BadToken => true
             case Good(_, e) => q == e
    ensures c == Head(Tokens(src, p))
    ensures c.kind != TError ==> Tokens(src, q) == Rest(Tokens(src, p))
  {
    hide Lex;
    TokensNext(src, p);
    GoodKinds(src, p);
  }

  lemma AheadSecond(src: bytes, q: nat, ts: seq<Token>, c: Token, n: Token, next: nat)
    requires q <= |src| && next <= |src| && c == Head(ts) && (c.kind != TError ==> Tokens(src, q) == Rest(ts))
    requires n == match Lex(src, q)
                  case EndOfInput => END_TOKEN
                  case BadToken => BAD_TOKEN
                  case Good(t, _) => t
    requires match Lex(src, q)
             case EndOfInput => next == |src|
             case BadToken => true
             case Good(_, e) => next == e
    ensures Ahead(src, next, c, n, ts)
  {
    hide Lex;
    TokensNext(src, q);
    GoodKinds(src, q);
  }

  // ---------------------------------------------------------------- building

  /** The node and scope stacks with the key set and the key-tree pool. */
  class Builder {
    var nodes: seq<Node>
    var scopes: seq<int>
    const keySet: Set
    const keyTree: KeyTreePool

    ghost predicate Valid()
      reads this, keySet, keySet.entries, keyTree
    {
      keySet.Valid() && StOk(State())
    }

    ghost function State(): St
      reads this, keySet, keySet.entries, keyTree
    {
      St(nodes, scopes, keySet.Contents(), keyTree.nodes)
    }

    ghost function Bounds(): Limits
      reads this
    {
      Limits(keySet.entries.Length, keyTree.capacity)
    }

    ghost function Footprint(): set<object>
      reads this
    {
      {this, keySet, keySet.entries, keyTree}
    }

    constructor (s: Set, t: KeyTreePool)
      requires s.Valid() && t.nodes == []
      ensures Valid() && keySet == s && keyTree == t && nodes == [] && scopes == []
    {
      keySet, keyTree, nodes, scopes := s, t, [], [];
    }

    /** Duplicate detection and key sorting for the key node `idx` of object `parent`. */
    method EnterNewKey(parent: nat, idx: nat)
      requires Valid() && parent < |nodes| && idx < |nodes|
      modifies Footprint()
      ensures Valid() && State() == EnterKey(Bounds(), old(State()), parent, idx)
    {
      hide Scoped;
      hide KeyText;
      hide KeyInsert;
      hide Forward;
      hide ScopesOk;
      EnterKeeps(Bounds(), State(), parent, idx);
      var t := nodes[idx].tok;
      var text := TextOf(t);
      var key := Scoped(parent, text);
      if |key| <= MAX_STORED_LEN {
        var result := keySet.Insert(key);
        if result == Exists {
          nodes := nodes[idx := nodes[idx].(kind := AstSkipped)];
        } else {
          var root := keyTree.Insert(nodes[parent].keyTreeRoot, idx, nodes);
          nodes := nodes[parent := nodes[parent].(keyTreeRoot := root)];
        }
      }
    }

    /** The decoded key. */
    method TextOf(t: Token) returns (text: bytes)
      ensures text == KeyText(t)
    {
      hide Unescaped;
      text := t.raw;
      if t.esc {
        var buf := new byte[|t.raw| + 1];
        UnescapedShort(t.raw);
        var n := UnescapeString(t.raw, buf, 0);
        assert buf[..n] == buf[..][0..n];
        text := buf[..n];
      }
    }

    /** The links of the new node, and the skipping of a value whose key was skipped. */
    method LinkStructure(parent: nat, tail: int, count: int, idx: nat)
      requires parent < |nodes| && idx < |nodes| && -1 <= tail < |nodes|
      modifies this`nodes
      ensures nodes == SkipValue(Linked(old(nodes), parent, tail, idx), parent, tail, count, idx)
      ensures forall i :: 0 <= i < |nodes| ==> nodes[i].keyTreeRoot == old(nodes)[i].keyTreeRoot
    {
      nodes := nodes[idx := nodes[idx].(parent := parent)];
      if tail == -1 {
        nodes := nodes[parent := nodes[parent].(firstChild := idx)];
      } else {
        nodes := nodes[tail := nodes[tail].(nextSibling := idx)];
      }
      if nodes[parent].tok.kind == TBraceOpen && count % 2 != 0 {
        if tail != -1 && nodes[tail].kind == AstSkipped {
          nodes := nodes[idx := nodes[idx].(kind := AstSkipped)];
        }
      }
    }

    /** `link_node_to_scope`, for the node pushed last. */
    method Link()
      requires Valid() && nodes != []
      modifies Footprint()
      ensures Valid() && State() == LinkLast(Bounds(), old(State()))
    {
      hide Forward;
      hide ScopesOk;
      hide EnterKey;
      hide Linked;
      hide SkipValue;
      LinkKeeps(Bounds(), State());
      if |scopes| < 3 {
        return;
      }
      ScopesMean(State());
      var idx, m := |nodes| - 1, |scopes|;
      var count, tail, parent := scopes[m - 1], scopes[m - 2], scopes[m - 3];
      LinkStructure(parent, tail, count, idx);
      scopes := scopes[m - 2 := idx][m - 1 := count + 1];
      StillOk(old(State()), State());
      if nodes[parent].tok.kind == TBraceOpen && count % 2 == 0 {
        EnterNewKey(parent, idx);
      }
    }

    method PushNode(n: Node)
      requires Valid() && n.keyTreeRoot == -1
      modifies Footprint()
      ensures Valid() && State() == Push(Bounds(), old(State()), n)
    {
      hide StOk;
      hide LinkLast;
      PushKeeps(State(), n);
      nodes := nodes + [n];
      Link();
    }

    method Open()
      requires Valid() && nodes != []
      modifies this
      ensures Valid() && State() == OpenScope(old(State()))
    {
      hide StOk;
      OpenKeeps(State());
      scopes := scopes + [|nodes| - 1, -1, 0];
    }

    method Close()
      requires Valid() && |scopes| >= 3
      modifies this
      ensures Valid() && State() == CloseScope(old(State()))
    {
      hide StOk;
      CloseKeeps(State());
      scopes := scopes[..|scopes| - 3];
    }
  }

  lemma UnescapedShort(s: bytes)
    ensures |Unescaped(s)| <= |s|
  {
    hide Unescaped;
  }

  /** Relinking one node keeps the state in order. */
  lemma StillOk(a: St, b: St)
    requires StOk(a) && |a.scopes| >= 3 && a.nodes != []
    requires |b.nodes| == |a.nodes| && b.tree == a.tree
    requires b.scopes == a.scopes[|a.scopes| - 2 := |a.nodes| - 1][|a.scopes| - 1 := a.scopes[|a.scopes| - 1] + 1]
    requires forall i :: 0 <= i < |a.nodes| ==> b.nodes[i].keyTreeRoot == a.nodes[i].keyTreeRoot
    ensures StOk(b)
  {
    hide ScopesOk;
    hide Forward;
    ScopesAdvance(a.scopes, |a.nodes|, |a.nodes| - 1);
  }

  // ---------------------------------------------------------------- the control stack

  /** How far the symbols on top are from a terminal. */
  function Weight(x: Sym): nat {
    match x
    case Term(_) => 0
    case RJson => 3
    case RValue => 2
    case RObject => 1
    case RArray => 1
    case RMembers => 3
    case RPair => 1
    case RElements => 4
    case RNextMember => 1
    case RNextElement => 1
    case MarkObject => 1
    case MarkArray => 1
  }

  function Lead(ctl: seq<Sym>): nat {
    if ctl == [] || ctl[|ctl| - 1].Term? then 0 else Weight(ctl[|ctl| - 1]) + Lead(ctl[..|ctl| - 1])
  }

  function Marks(ctl: seq<Sym>): nat {
    if ctl == [] then 0
    else Marks(ctl[..|ctl| - 1]) + (if ctl[|ctl| - 1].MarkObject? || ctl[|ctl| - 1].MarkArray? then 1 else 0)
  }

  lemma LeadTop(rest: seq<Sym>, x: Sym)
    ensures Lead(rest + [x]) == if x.Term? then 0 else Weight(x) + Lead(rest)
    ensures Marks(rest + [x]) == Marks(rest) + (if x.MarkObject? || x.MarkArray? then 1 else 0)
  {
    hide Weight;
    assert (rest + [x])[..|rest|] == rest;
  }

  lemma LeadTwo(rest: seq<Sym>, x: Sym, y: Sym)
    ensures rest + [x, y] == rest + [x] + [y]
    ensures Lead(rest + [x, y]) == if y.Term? then 0 else Weight(y) + Lead(rest + [x])
    ensures Marks(rest + [x, y]) == Marks(rest + [x]) + (if y.MarkObject? || y.MarkArray? then 1 else 0)
  {
    hide Lead;
    hide Marks;
    assert rest + [x, y] == rest + [x] + [y];
    LeadTop(rest + [x], y);
  }

  lemma LeadThree(rest: seq<Sym>, x: Sym, y: Sym, z: Sym)
    ensures rest + [x, y, z] == rest + [x, y] + [z]
    ensures Lead(rest + [x, y, z]) == if z.Term? then 0 else Weight(z) + Lead(rest + [x, y])
    ensures Marks(rest + [x, y, z]) == Marks(rest + [x, y]) + (if z.MarkObject? || z.MarkArray? then 1 else 0)
  {
    hide Lead;
    hide Marks;
    assert rest + [x, y, z] == rest + [x, y] + [z];
    LeadTop(rest + [x, y], z);
  }

  /** The end of input is expected last, and only then. */
  ghost predicate Bottomed(ctl: seq<Sym>) {
    && (ctl == [] || ctl == [RJson] || ctl[0] == Term(TEof))
    && (forall i :: 0 < i < |ctl| ==> ctl[i] != Term(TEof) && ctl[i] != RJson)
    && Term(TError) !in ctl
  }

  lemma BottomTop(rest: seq<Sym>, x: Sym)
    requires Bottomed(rest + [x])
    ensures rest != [] ==> rest[0] == Term(TEof) && x != Term(TEof) && x != RJson
    ensures rest == [] ==> x == Term(TEof) || x == RJson
    ensures Bottomed(rest) && x != Term(TError)
  {
    assert (rest + [x])[0] == if rest == [] then x else rest[0];
    assert (rest + [x])[|rest|] == x;
    forall i | 0 < i < |rest| ensures rest[i] != Term(TEof) && rest[i] != RJson {
      assert (rest + [x])[i] == rest[i];
    }
  }

  lemma BottomPush(rest: seq<Sym>, more: seq<Sym>)
    requires Bottomed(rest) && rest != [] && rest[0] == Term(TEof)
    requires forall i :: 0 <= i < |more| ==> more[i] != Term(TEof) && more[i] != RJson && more[i] != Term(TError)
    ensures Bottomed(rest + more)
  {
  }

  /** What one turn of the loop keeps: the outcome of the parse is still the same. */
  ghost predicate SameOutcome(lim: Limits, was: seq<Sym>, st0: St, d0: nat, now: seq<Sym>, st1: St, d1: nat, ts: seq<Token>)
  {
    && StOk(st0) && StOk(st1)
    && Outcome(lim, now, ts, st1, d1) == Outcome(lim, was, ts, st0, d0)
    && Lead(now) < Lead(was) && Bottomed(now) && Marks(now) == d1 <= MAX_DEPTH && |st1.scopes| == 3 * d1
  }

  predicate ValueExpanded(rest: seq<Sym>, controls: seq<Sym>, c: Token) {
    || (controls == rest + [RObject] && c.kind == TBraceOpen)
    || (controls == rest + [RArray] && c.kind == TBracketOpen)
    || controls == rest + [Term(c.kind)]
  }

  /** Expanding a value: a container rule, a terminal, or an error. */
  method ExpandValue(rest: seq<Sym>, c: Token, ghost lim: Limits, ghost ts: seq<Token>, ghost st: St, ghost depth: nat)
    returns (ok: bool, controls: seq<Sym>)
    requires StOk(st) && c == Head(ts) && depth <= MAX_DEPTH && |st.scopes| == 3 * depth
    requires Bottomed(rest + [RValue]) && Marks(rest + [RValue]) == depth
    ensures !ok ==> Outcome(lim, rest + [RValue], ts, st, depth) == None
    ensures ok ==> SameOutcome(lim, rest + [RValue], st, depth, controls, st, depth, ts)
    ensures ok ==> ValueExpanded(rest, controls, c)
  {
    hide StOk;
    hide Outcome;
    hide Bottomed;
    hide Marks;
    hide Lead;
    BottomTop(rest, RValue);
    LeadTop(rest, RValue);
    ValueToContainer(lim, rest, ts, st, depth);
    ok := true;
    if c.kind == TBraceOpen {
      controls := rest + [RObject];
      LeadTop(rest, RObject);
      BottomPush(rest, [RObject]);
    } else if c.kind == TBracketOpen {
      controls := rest + [RArray];
      LeadTop(rest, RArray);
      BottomPush(rest, [RArray]);
    } else if LiteralKind(c.kind) {
      ValueToLeaf(lim, rest, ts, st, depth);
      controls := rest + [Term(c.kind)];
      LeadTop(rest, Term(c.kind));
      BottomPush(rest, [Term(c.kind)]);
    } else {
      ok, controls := false, [];
    }
  }

  /** `RULE_OBJECT` and `RULE_ARRAY`: the node is made before its first child is seen. */
  method ExpandObject(b: Builder, rest: seq<Sym>, c: Token, n: Token, depth: nat, ghost ts: seq<Token>)
    returns (ok: bool, controls: seq<Sym>)
    requires b.Valid() && c == Head(ts) && c == BraceToken && n == Head(Rest(ts)) && depth <= MAX_DEPTH
    requires Bottomed(rest + [RObject]) && Marks(rest + [RObject]) == depth && |b.scopes| == 3 * depth
    modifies b.Footprint()
    ensures b.Valid()
    ensures !ok ==> Outcome(b.Bounds(), rest + [RObject], ts, old(b.State()), depth) == None
    ensures ok ==> SameOutcome(b.Bounds(), rest + [RObject], old(b.State()), depth, controls, b.State(), depth + 1, ts)
    ensures ok ==> |rest| < |controls| && controls[..|rest|] == rest
                   && forall i :: |rest| <= i < |controls| ==> controls[i] != RObject && controls[i] != RArray
  {
    hide StOk;
    hide Outcome;
    hide Bottomed;
    hide Marks;
    hide Lead;
    hide Push;
    hide OpenScope;
    BottomTop(rest, RObject);
    LeadTop(rest, RObject);
    if depth + 1 > MAX_DEPTH {
      TooDeep(b.Bounds(), rest, ts, b.State(), depth);
      return false, [];
    }
    ghost var st := b.State();
    b.PushNode(NewNode(AstObject, c));
    b.Open();
    ok := true;
    LeadTop(rest, MarkObject);
    LeadTwo(rest, MarkObject, Term(TBraceClose));
    if n.kind != TBraceClose {
      ObjectStep(b.Bounds(), rest, ts, st, depth);
      controls := rest + [MarkObject, Term(TBraceClose), RMembers, Term(TBraceOpen)];
      LeadThree(rest, MarkObject, Term(TBraceClose), RMembers);
      assert controls == rest + [MarkObject, Term(TBraceClose), RMembers] + [Term(TBraceOpen)];
      LeadTop(rest + [MarkObject, Term(TBraceClose), RMembers], Term(TBraceOpen));
      BottomPush(rest, [MarkObject, Term(TBraceClose), RMembers, Term(TBraceOpen)]);
    } else {
      EmptyObjectStep(b.Bounds(), rest, ts, st, depth);
      controls := rest + [MarkObject, Term(TBraceClose), Term(TBraceOpen)];
      LeadThree(rest, MarkObject, Term(TBraceClose), Term(TBraceOpen));
      BottomPush(rest, [MarkObject, Term(TBraceClose), Term(TBraceOpen)]);
    }
  }

  method ExpandArray(b: Builder, rest: seq<Sym>, c: Token, n: Token, depth: nat, ghost ts: seq<Token>)
    returns (ok: bool, controls: seq<Sym>)
    requires b.Valid() && c == Head(ts) && c == BracketToken && n == Head(Rest(ts)) && depth <= MAX_DEPTH
    requires Bottomed(rest + [RArray]) && Marks(rest + [RArray]) == depth && |b.scopes| == 3 * depth
    modifies b.Footprint()
    ensures b.Valid()
    ensures !ok ==> Outcome(b.Bounds(), rest + [RArray], ts, old(b.State()), depth) == None
    ensures ok ==> SameOutcome(b.Bounds(), rest + [RArray], old(b.State()), depth, controls, b.State(), depth + 1, ts)
    ensures ok ==> |rest| < |controls| && controls[..|rest|] == rest
                   && forall i :: |rest| <= i < |controls| ==> controls[i] != RObject && controls[i] != RArray
  {
    hide StOk;
    hide Outcome;
    hide Bottomed;
    hide Marks;
    hide Lead;
    hide Push;
    hide OpenScope;
    BottomTop(rest, RArray);
    LeadTop(rest, RArray);
    if depth + 1 > MAX_DEPTH {
      TooDeep(b.Bounds(), rest, ts, b.State(), depth);
      return false, [];
    }
    ghost var st := b.State();
    b.PushNode(NewNode(AstArray, c));
    b.Open();
    ok := true;
    LeadTop(rest, MarkArray);
    LeadTwo(rest, MarkArray, Term(TBracketClose));
    if n.kind != TBracketClose {
      ArrayStep(b.Bounds(), rest, ts, st, depth);
      controls := rest + [MarkArray, Term(TBracketClose), RElements, Term(TBracketOpen)];
      LeadThree(rest, MarkArray, Term(TBracketClose), RElements);
      assert controls == rest + [MarkArray, Term(TBracketClose), RElements] + [Term(TBracketOpen)];
      LeadTop(rest + [MarkArray, Term(TBracketClose), RElements], Term(TBracketOpen));
      BottomPush(rest, [MarkArray, Term(TBracketClose), RElements, Term(TBracketOpen)]);
    } else {
      EmptyArrayStep(b.Bounds(), rest, ts, st, depth);
      controls := rest + [MarkArray, Term(TBracketClose), Term(TBracketOpen)];
      LeadThree(rest, MarkArray, Term(TBracketClose), Term(TBracketOpen));
      BottomPush(rest, [MarkArray, Term(TBracketClose), Term(TBracketOpen)]);
    }
  }

  // ---------------------------------------------------------------- the loop

  /** Container rules appear only on top, in front of their opening bracket. */
  ghost predicate Calm(ctl: seq<Sym>) {
    forall i :: 0 <= i < |ctl| ==> ctl[i] != RObject && ctl[i] != RArray
  }

  ghost predicate TopFits(ctl: seq<Sym>, c: Token) {
    ctl == [] ||
    (&& Calm(ctl[..|ctl| - 1])
     && (ctl[|ctl| - 1] == RObject ==> c.kind == TBraceOpen)
     && (ctl[|ctl| - 1] == RArray ==> c.kind == TBracketOpen))
  }

  lemma TopFitsIs(rest: seq<Sym>, x: Sym, c: Token)
    ensures TopFits(rest + [x], c) <==> Calm(rest) && (x == RObject ==> c.kind == TBraceOpen) && (x == RArray ==> c.kind == TBracketOpen)
    ensures TopFits(rest, c) || !Calm(rest)
  {
    assert (rest + [x])[..|rest|] == rest;
    if rest != [] && Calm(rest) {
      assert Calm(rest[..|rest| - 1]);
    }
  }

  lemma CalmPush(rest: seq<Sym>, more: seq<Sym>, c: Token)
    requires Calm(rest) && forall i :: 0 <= i < |more| ==> more[i] != RObject && more[i] != RArray
    ensures Calm(rest + more) && TopFits(rest + more, c)
  {
    if rest + more != [] {
      assert Calm((rest + more)[..|rest + more| - 1]);
    }
  }

  /** The rules for lists of members and elements. */
  method ExpandList(x: Sym, rest: seq<Sym>, c: Token, ghost lim: Limits, ghost ts: seq<Token>, ghost st: St, ghost depth: nat)
    returns (controls: seq<Sym>)
    requires x == RMembers || x == RPair || x == RElements || x == RJson
    requires StOk(st) && c == Head(ts) && depth <= MAX_DEPTH && |st.scopes| == 3 * depth
    requires Bottomed(rest + [x]) && Marks(rest + [x]) == depth && Calm(rest)
    ensures SameOutcome(lim, rest + [x], st, depth, controls, st, depth, ts) && TopFits(controls, c) && controls != []
  {
    hide StOk;
    hide Outcome;
    hide Bottomed;
    hide Marks;
    hide Lead;
    hide Calm;
    hide TopFits;
    BottomTop(rest, x);
    LeadTop(rest, x);
    match x {
      case RJson =>
        assert rest + [RJson] == [RJson];
        JsonStep(lim, ts, st, depth);
        controls := rest + [Term(TEof), RValue];
        JsonPushed(controls);
        LeadTwo(rest, Term(TEof), RValue);
        LeadTop(rest, Term(TEof));
      case RMembers =>
        MembersStep(lim, rest, ts, st, depth);
        controls := rest + [RNextMember, RPair];
        LeadTwo(rest, RNextMember, RPair);
        LeadTop(rest, RNextMember);
        BottomPush(rest, [RNextMember, RPair]);
      case RPair =>
        PairStep(lim, rest, ts, st, depth);
        controls := rest + [RValue, Term(TColon), Term(TString)];
        LeadThree(rest, RValue, Term(TColon), Term(TString));
        LeadTwo(rest, RValue, Term(TColon));
        LeadTop(rest, RValue);
        BottomPush(rest, [RValue, Term(TColon), Term(TString)]);
      case RElements =>
        ElementsStep(lim, rest, ts, st, depth);
        controls := rest + [RNextElement, RValue];
        LeadTwo(rest, RNextElement, RValue);
        LeadTop(rest, RNextElement);
        BottomPush(rest, [RNextElement, RValue]);
      case _ => controls := rest;
    }
    CalmPush(rest, controls[|rest|..], c);
    assert rest + controls[|rest|..] == controls;
  }

  method ExpandNext(x: Sym, rest: seq<Sym>, c: Token, ghost lim: Limits, ghost ts: seq<Token>, ghost st: St, ghost depth: nat)
    returns (controls: seq<Sym>)
    requires x == RNextMember || x == RNextElement
    requires StOk(st) && c == Head(ts) && depth <= MAX_DEPTH && |st.scopes| == 3 * depth
    requires Bottomed(rest + [x]) && Marks(rest + [x]) == depth && Calm(rest)
    ensures SameOutcome(lim, rest + [x], st, depth, controls, st, depth, ts) && TopFits(controls, c) && controls != []
  {
    hide StOk;
    hide Outcome;
    hide Bottomed;
    hide Marks;
    hide Lead;
    hide Calm;
    hide TopFits;
    BottomTop(rest, x);
    LeadTop(rest, x);
    if x == RNextMember {
      NextMemberStep(lim, rest, ts, st, depth);
      if c.kind == TComma {
        controls := rest + [RMembers, Term(TComma)];
        LeadTwo(rest, RMembers, Term(TComma));
        LeadTop(rest, RMembers);
        BottomPush(rest, [RMembers, Term(TComma)]);
      } else {
        controls := rest;
      }
    } else {
      NextElementStep(lim, rest, ts, st, depth);
      if c.kind == TComma {
        controls := rest + [RElements, Term(TComma)];
        LeadTwo(rest, RElements, Term(TComma));
        LeadTop(rest, RElements);
        BottomPush(rest, [RElements, Term(TComma)]);
      } else {
        controls := rest;
      }
    }
    CalmPush(rest, controls[|rest|..], c);
    assert rest + controls[|rest|..] == controls;
  }

  lemma JsonPushed(controls: seq<Sym>)
    requires controls == [Term(TEof), RValue]
    ensures Bottomed(controls)
  {
  }

  /** `MARK_OBJECT_END` and `MARK_ARRAY_END`. */
  method CloseContainer(b: Builder, x: Sym, rest: seq<Sym>, depth: nat, ghost ts: seq<Token>)
    requires x == MarkObject || x == MarkArray
    requires b.Valid() && Bottomed(rest + [x]) && Marks(rest + [x]) == depth <= MAX_DEPTH && |b.scopes| == 3 * depth
    modifies b
    ensures b.Valid() && depth > 0
    ensures SameOutcome(b.Bounds(), rest + [x], old(b.State()), depth, rest, b.State(), depth - 1, ts)
  {
    hide StOk;
    hide Outcome;
    hide Bottomed;
    hide Marks;
    hide Lead;
    hide CloseScope;
    BottomTop(rest, x);
    LeadTop(rest, x);
    Top(b.Bounds(), rest, x, ts, b.State(), depth);
    b.Close();
  }

  lemma EofAlone(ts: seq<Token>)
    requires forall i :: 0 <= i < |ts| ==> ts[i].kind != TEof
    ensures Head(ts).kind == TEof <==> ts == []
    ensures forall i :: 0 <= i < |Rest(ts)| ==> Rest(ts)[i].kind != TEof
    ensures |Rest(ts)| <= |ts| && (ts != [] ==> |Rest(ts)| < |ts|)
  {
  }

  lemma CanonicalRest(ts: seq<Token>)
    requires AllCanonical(ts)
    ensures AllCanonical(Rest(ts)) && Canonical(Head(ts))
    ensures Head(ts).kind == TBraceOpen ==> Head(ts) == BraceToken
    ensures Head(ts).kind == TBracketOpen ==> Head(ts) == BracketToken
  {
  }

  /** Everything the loop keeps between turns. */
  ghost predicate Inv(b: Builder, lexer: Lexer, controls: seq<Sym>, c: Token, n: Token, depth: nat, ts: seq<Token>, goal: Option<St>)
    reads b, b.keySet, b.keySet.entries, b.keyTree, lexer
  {
    && b.Valid() && lexer.Valid()
    && Ahead(lexer.source, lexer.pos, c, n, ts)
    && AllCanonical(ts) && (forall i :: 0 <= i < |ts| ==> ts[i].kind != TEof)
    && Outcome(b.Bounds(), controls, ts, b.State(), depth) == goal
    && Bottomed(controls) && Marks(controls) == depth <= MAX_DEPTH && |b.scopes| == 3 * depth
    && TopFits(controls, c) && (controls == [] ==> ts == [])
  }

  /** One expansion or reduction: any symbol but a terminal. */
  method Turn(b: Builder, x: Sym, rest: seq<Sym>, c: Token, n: Token, depth: nat, ghost ts: seq<Token>)
    returns (ok: bool, controls: seq<Sym>, depth2: nat)
    requires b.Valid() && c == Head(ts) && (c.kind != TError ==> n == Head(Rest(ts))) && AllCanonical(ts)
    requires Bottomed(rest + [x]) && Marks(rest + [x]) == depth <= MAX_DEPTH && |b.scopes| == 3 * depth
    requires TopFits(rest + [x], c) && !x.Term?
    modifies b.Footprint()
    ensures b.Valid()
    ensures !ok ==> Outcome(b.Bounds(), rest + [x], ts, old(b.State()), depth) == None
    ensures ok ==> SameOutcome(b.Bounds(), rest + [x], old(b.State()), depth, controls, b.State(), depth2, ts)
    ensures ok ==> TopFits(controls, c) && controls != []
  {
    hide StOk;
    hide Outcome;
    hide Bottomed;
    hide Marks;
    hide Lead;
    hide Calm;
    hide TopFits;
    hide Canonical;
    TopFitsIs(rest, x, c);
    BottomTop(rest, x);
    CanonicalRest(ts);
    ok, controls, depth2 := true, rest, depth;
    match x {
      case RValue =>
        ok, controls := ExpandValue(rest, c, b.Bounds(), ts, b.State(), depth);
        if ok {
          ValueTop(rest, controls, c);
        }
      case RObject =>
        ok, controls := ExpandObject(b, rest, c, n, depth, ts);
        depth2 := depth + 1;
        if ok {
          CalmPush(rest, controls[|rest|..], c);
          assert rest + controls[|rest|..] == controls;
        }
      case RArray =>
        ok, controls := ExpandArray(b, rest, c, n, depth, ts);
        depth2 := depth + 1;
        if ok {
          CalmPush(rest, controls[|rest|..], c);
          assert rest + controls[|rest|..] == controls;
        }
      case MarkObject =>
        CloseContainer(b, x, rest, depth, ts);
        depth2 := depth - 1;
      case MarkArray =>
        CloseContainer(b, x, rest, depth, ts);
        depth2 := depth - 1;
      case RNextMember =>
        controls := ExpandNext(x, rest, c, b.Bounds(), ts, b.State(), depth);
      case RNextElement =>
        controls := ExpandNext(x, rest, c, b.Bounds(), ts, b.State(), depth);
      case Term(_) =>
      case _ =>
        controls := ExpandList(x, rest, c, b.Bounds(), ts, b.State(), depth);
    }
  }

  lemma ValueTop(rest: seq<Sym>, controls: seq<Sym>, c: Token)
    requires Calm(rest)
    requires ValueExpanded(rest, controls, c)
    ensures TopFits(controls, c)
  {
    hide Calm;
    hide TopFits;
    TopFitsIs(rest, controls[|rest|], c);
  }

  /** A terminal that is the next token. */
  method Accept(b: Builder, k: TokenType, rest: seq<Sym>, c: Token, depth: nat, ghost ts: seq<Token>)
    requires b.Valid() && c == Head(ts) && c.kind == k && |b.scopes| == 3 * depth
    modifies b.Footprint()
    ensures b.Valid() && |b.scopes| == 3 * depth
    ensures Outcome(b.Bounds(), rest, Rest(ts), b.State(), depth) == Outcome(b.Bounds(), rest + [Term(k)], ts, old(b.State()), depth)
  {
    hide StOk;
    hide Outcome;
    hide Push;
    Top(b.Bounds(), rest, Term(k), ts, b.State(), depth);
    if LiteralKind(k) {
      b.PushNode(NewNode(AstLeaf, c));
    }
  }

  lemma Refused(lim: Limits, rest: seq<Sym>, k: TokenType, ts: seq<Token>, st: St, depth: nat)
    requires StOk(st) && Head(ts).kind != k
    ensures Outcome(lim, rest + [Term(k)], ts, st, depth) == None
  {
    hide StOk;
    hide Outcome;
    hide Push;
    Top(lim, rest, Term(k), ts, st, depth);
  }

  lemma Finished(lim: Limits, ts: seq<Token>, st: St, depth: nat)
    requires StOk(st)
    ensures Outcome(lim, [], ts, st, depth) == Some(st)
  {
    hide StOk;
  }

  /** What parsing the tokens `ts` into an empty pool comes to. */
  ghost function ParseOutcome(lim: Limits, ts: seq<Token>): Option<St> {
    match ParseValue(ts)
    case NoParse => None
    case Parsed(t, rest) =>
      if rest == [] && Nesting(t) <= MAX_DEPTH then EmptyOk(); Some(AddTree(lim, St([], [], {}, []), t)) else None
  }

  lemma EmptyOk()
    ensures StOk(St([], [], {}, []))
  {
  }

  lemma StartOutcome(lim: Limits, ts: seq<Token>)
    requires AllCanonical(ts) && forall i :: 0 <= i < |ts| ==> ts[i].kind != TEof
    ensures StOk(St([], [], {}, []))
    ensures Outcome(lim, [RJson], ts, St([], [], {}, []), 0) == ParseOutcome(lim, ts)
  {
    hide StOk;
    hide Outcome;
    hide AddTree;
    hide Nesting;
    hide ParseValue;
    hide AllCanonical;
    EmptyOk();
    var st := St([], [], {}, []);
    assert [RJson] == [] + [RJson];
    Top(lim, [], RJson, ts, st, 0);
    if ParseValue(ts).Parsed? {
      SuffixKinds(ts);
      EofAlone(ParseValue(ts).rest);
      Finished(lim, Rest(ParseValue(ts).rest), AddTree(lim, st, ParseValue(ts).value), 0);
    }
  }

  /** What is left over has no end-of-input token either. */
  lemma SuffixKinds(ts: seq<Token>)
    requires AllCanonical(ts) && ParseValue(ts).Parsed? && forall i :: 0 <= i < |ts| ==> ts[i].kind != TEof
    ensures forall i :: 0 <= i < |ParseValue(ts).rest| ==> ParseValue(ts).rest[i].kind != TEof
  {
    hide *;
    OnlySpellings(ts);
    var a, rest := Spell(ParseValue(ts).value), ParseValue(ts).rest;
    forall i | 0 <= i < |rest| ensures rest[i].kind != TEof {
      assert ts[|a| + i] == rest[i];
    }
  }

  lemma SameOutcomeMeans(lim: Limits, was: seq<Sym>, st0: St, d0: nat, now: seq<Sym>, st1: St, d1: nat, ts: seq<Token>)
    requires SameOutcome(lim, was, st0, d0, now, st1, d1, ts)
    ensures StOk(st0) && StOk(st1) && Outcome(lim, now, ts, st1, d1) == Outcome(lim, was, ts, st0, d0)
    ensures Lead(now) < Lead(was) && Bottomed(now) && Marks(now) == d1 <= MAX_DEPTH && |st1.scopes| == 3 * d1
  {
    hide StOk;
    hide Outcome;
    hide Lead;
    hide Bottomed;
    hide Marks;
  }

  lemma Split(controls: seq<Sym>)
    requires controls != []
    ensures controls == controls[..|controls| - 1] + [controls[|controls| - 1]]
  {
  }

  ghost predicate Progress(ts0: seq<Token>, ctl0: seq<Sym>, ts1: seq<Token>, ctl1: seq<Sym>) {
    || |ts1| < |ts0|
    || (|ts1| == |ts0| && Lead(ctl1) < Lead(ctl0))
    || (|ts1| == |ts0| && Lead(ctl1) <= Lead(ctl0) && |ctl1| < |ctl0|)
  }

  /** The turn of the loop that matches a terminal. */
  method MatchTerminal(b: Builder, lexer: Lexer, k: TokenType, rest: seq<Sym>, c: Token, n: Token, depth: nat,
                       ghost ts: seq<Token>, ghost goal: Option<St>) returns (ok: bool, n2: Token)
    requires Inv(b, lexer, rest + [Term(k)], c, n, depth, ts, goal)
    modifies b.Footprint(), lexer
    ensures !ok ==> goal == None
    ensures ok ==> Inv(b, lexer, rest, n, n2, depth, Rest(ts), goal) && Progress(ts, rest + [Term(k)], Rest(ts), rest)
    ensures b.Bounds() == old(b.Bounds())
  {
    hide StOk;
    hide Outcome;
    hide ParseOutcome;
    hide Tokens;
    hide Lex;
    hide Ahead;
    hide Bottomed;
    hide Marks;
    hide Lead;
    hide TopFits;
    hide Calm;
    hide Canonical;
    hide AllCanonical;
    hide Probed;
    hide Members;
    hide Used;
    hide SameOutcome;
    BottomTop(rest, Term(k));
    LeadTop(rest, Term(k));
    EofAlone(ts);
    CanonicalRest(ts);
    TopFitsIs(rest, Term(k), c);
    TopFitsIs(rest, Term(k), n);
    AheadMeans(lexer.source, lexer.pos, c, n, ts);
    if k != c.kind {
      Refused(b.Bounds(), rest, k, ts, b.State(), depth);
      return false, n;
    }
    Accept(b, k, rest, c, depth, ts);
    ghost var at := lexer.pos;
    n2 := lexer.NextToken();
    AtError(k, rest);
    AheadNext(lexer.source, at, c, n, ts, n2, lexer.pos);
    ok := true;
  }

  lemma AtError(k: TokenType, rest: seq<Sym>)
    ensures Lead([]) == 0
  {
  }

  /** The turn of the loop that expands a rule or closes a container. */
  method ExpandTop(b: Builder, lexer: Lexer, x: Sym, rest: seq<Sym>, c: Token, n: Token, depth: nat,
                   ghost ts: seq<Token>, ghost goal: Option<St>) returns (ok: bool, controls: seq<Sym>, depth2: nat)
    requires Inv(b, lexer, rest + [x], c, n, depth, ts, goal) && !x.Term?
    modifies b.Footprint()
    ensures !ok ==> goal == None
    ensures ok ==> Inv(b, lexer, controls, c, n, depth2, ts, goal) && Progress(ts, rest + [x], ts, controls)
    ensures b.Bounds() == old(b.Bounds())
  {
    hide StOk;
    hide Outcome;
    hide ParseOutcome;
    hide Tokens;
    hide Lex;
    hide Ahead;
    hide Bottomed;
    hide Marks;
    hide Lead;
    hide TopFits;
    hide Calm;
    hide Canonical;
    hide AllCanonical;
    hide Probed;
    hide Members;
    hide Used;
    hide SameOutcome;
    AheadMeans(lexer.source, lexer.pos, c, n, ts);
    ghost var was := b.State();
    ok, controls, depth2 := Turn(b, x, rest, c, n, depth, ts);
    if ok {
      SameOutcomeMeans(b.Bounds(), rest + [x], was, depth, controls, b.State(), depth2, ts);
    }
  }

  /** The loop. */
  method Loop(b: Builder, lexer: Lexer, c0: Token, n0: Token, ghost ts0: seq<Token>, ghost goal: Option<St>) returns (ok: bool)
    requires Inv(b, lexer, [RJson], c0, n0, 0, ts0, goal)
    modifies b.Footprint(), lexer
    ensures !ok ==> goal == None
    ensures ok ==> b.Valid() && goal == Some(b.State())
  {
    hide StOk;
    hide Outcome;
    hide ParseOutcome;
    hide Tokens;
    hide Lex;
    hide Ahead;
    hide Bottomed;
    hide Marks;
    hide Lead;
    hide TopFits;
    hide Calm;
    hide Canonical;
    hide AllCanonical;
    hide Probed;
    hide Members;
    hide Used;
    hide SameOutcome;
    hide Inv;
    hide Progress;
    var controls := [RJson];
    var depth: nat := 0;
    var c, n := c0, n0;
    ghost var ts := ts0;
    while controls != []
      invariant Inv(b, lexer, controls, c, n, depth, ts, goal)
      decreases |ts|, Lead(controls), |controls|
    {
      var rest, x := controls[..|controls| - 1], controls[|controls| - 1];
      Split(controls);
      if x.Term? {
        var fine, next := MatchTerminal(b, lexer, x.kind, rest, c, n, depth, ts, goal);
        if !fine {
          return false;
        }
        ProgressMeans(ts, controls, Rest(ts), rest);
        controls, c, n, ts := rest, n, next, Rest(ts);
        if n.kind == TEof && controls == [] {
          break;
        }
      } else {
        var fine, more, depth2 := ExpandTop(b, lexer, x, rest, c, n, depth, ts, goal);
        if !fine {
          return false;
        }
        ProgressMeans(ts, controls, ts, more);
        controls, depth := more, depth2;
      }
    }
    AtTheEnd(b, lexer, c, n, depth, ts, goal);
    ok := n.kind == TEof;
  }

  lemma ProgressMeans(ts0: seq<Token>, ctl0: seq<Sym>, ts1: seq<Token>, ctl1: seq<Sym>)
    requires Progress(ts0, ctl0, ts1, ctl1)
    ensures || |ts1| < |ts0|
            || (|ts1| == |ts0| && Lead(ctl1) < Lead(ctl0))
            || (|ts1| == |ts0| && Lead(ctl1) <= Lead(ctl0) && |ctl1| < |ctl0|)
  {
    hide Lead;
  }

  lemma AtTheEnd(b: Builder, lexer: Lexer, c: Token, n: Token, depth: nat, ts: seq<Token>, goal: Option<St>)
    requires Inv(b, lexer, [], c, n, depth, ts, goal)
    ensures n.kind == TEof && b.Valid() && goal == Some(b.State())
  {
    hide StOk;
    hide Outcome;
    hide ParseOutcome;
    hide Tokens;
    hide Lex;
    hide Ahead;
    hide Bottomed;
    hide Marks;
    hide Lead;
    hide TopFits;
    hide Calm;
    hide Canonical;
    hide AllCanonical;
    hide Probed;
    hide Members;
    hide Used;
    hide SameOutcome;
    Finished(b.Bounds(), ts, b.State(), depth);
    AheadMeans(lexer.source, lexer.pos, c, n, ts);
  }

  /** `parse_ast`: accepts exactly the tokens of one value nested no deeper than the limit,
      and leaves what building that value leaves. */
  method ParseAst(lexer: Lexer, keySet: Set, keyTree: KeyTreePool) returns (ok: bool, b: Builder)
    requires lexer.Valid() && keySet.Valid() && keySet.Contents() == {} && keyTree.nodes == []
    modifies lexer, keySet, keySet.entries, keyTree
    ensures b.keySet == keySet && b.keyTree == keyTree
    ensures var r := ParseOutcome(Limits(keySet.entries.Length, keyTree.capacity), Tokens(lexer.source, old(lexer.pos)));
            (ok <==> r.Some?) && (ok ==> b.Valid() && b.State() == r.value)
  {
    hide StOk;
    hide Outcome;
    hide ParseOutcome;
    hide Tokens;
    hide Lex;
    hide Ahead;
    hide Bottomed;
    hide Marks;
    hide Lead;
    hide TopFits;
    hide Calm;
    hide Canonical;
    hide AllCanonical;
    hide Probed;
    hide Members;
    hide Used;
    hide SameOutcome;
    b := new Builder(keySet, keyTree);
    ghost var lim := Limits(keySet.entries.Length, keyTree.capacity);
    ghost var ts := Tokens(lexer.source, lexer.pos);
    ghost var start := lexer.pos;
    TokenKinds(lexer.source, lexer.pos);
    StartOutcome(lim, ts);
    ghost var goal := ParseOutcome(lim, ts);
    var c := lexer.NextToken();
    ghost var second := lexer.pos;
    AheadStart(lexer.source, start, c, second);
    var n := lexer.NextToken();
    AheadSecond(lexer.source, second, ts, c, n, lexer.pos);
    StartInv([RJson], c);
    StartState(b, lim);
    ok := Loop(b, lexer, c, n, ts, goal);
  }

  lemma StartInv(controls: seq<Sym>, c: Token)
    requires controls == [RJson]
    ensures Bottomed(controls) && Marks(controls) == 0 && TopFits(controls, c)
  {
  }

  lemma StartState(b: Builder, lim: Limits)
    requires b.Valid() && b.nodes == [] && b.scopes == [] && b.keySet.Contents() == {} && b.keyTree.nodes == []
    requires lim == Limits(b.keySet.entries.Length, b.keyTree.capacity)
    ensures b.State() == St([], [], {}, []) && b.Bounds() == lim
  {
  }
}
