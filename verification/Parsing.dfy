/** What remains to be parsed, as a function of the control stack: each symbol of the stack
    stands for the recursive reading of `Grammar` and the building of `Building`. */
module Parsing {
  import opened Bytes
  import opened Ast
  import opened Lexing
  import opened Grammar
  import opened Building

  const MAX_DEPTH: nat := 64

  /** Entries of the control stack: terminals, grammar rules and end marks. */
  datatype Sym =
    | Term(kind: TokenType)
    | RJson | RValue | RObject | RMembers | RPair | RArray | RElements | RNextMember | RNextElement
    | MarkObject | MarkArray

  function Rest(ts: seq<Token>): seq<Token> {
    if ts == [] then [] else ts[1..]
  }

  ghost predicate Ok(o: Option<St>) { o.Some? ==> StOk(o.value) }

  /** Reading symbol `x` off the front: the new state, the tokens left and the depth. */
  datatype Step = Stuck | Step(st: St, ts: seq<Token>, depth: nat)

  ghost function ReadSym(lim: Limits, x: Sym, ts: seq<Token>, st: St, depth: nat): (r: Step)
    requires StOk(st)
    ensures r.Step? ==> StOk(r.st)
  {
    match x
    case Term(k) =>
      if Head(ts).kind != k then Stuck
      else if LiteralKind(k) then Step(Push(lim, st, NewNode(AstLeaf, Head(ts))), Rest(ts), depth)
      else Step(st, Rest(ts), depth)
    case RJson =>
      (match ParseValue(ts)
       case NoParse => Stuck
       case Parsed(t, more) =>
         if depth + Nesting(t) > MAX_DEPTH || Head(more).kind != TEof then Stuck
         else Step(AddTree(lim, st, t), Rest(more), depth))
    case RValue => ReadTree(lim, ParseValue(ts), st, depth)
    case RObject => ReadTree(lim, if ts == [] then NoParse else ParseObject(ts), st, depth)
    case RArray => ReadTree(lim, if ts == [] then NoParse else ParseArray(ts), st, depth)
    case RPair =>
      (match ParsePair(ts)
       case NoParse => Stuck
       case Parsed(m, more) =>
         if depth + Nesting(m.val) > MAX_DEPTH then Stuck else Step(AddMembers(lim, st, [m]), more, depth))
    case RMembers => ReadMembers(lim, ParseMembers(ts), st, depth)
    case RNextMember => ReadMembers(lim, ParseMoreMembers(ts), st, depth)
    case RElements => ReadItems(lim, ParseElements(ts), st, depth)
    case RNextElement => ReadItems(lim, ParseMoreElements(ts), st, depth)
    case MarkObject => if |st.scopes| < 3 || depth == 0 then Stuck else Step(CloseScope(st), ts, depth - 1)
    case MarkArray => if |st.scopes| < 3 || depth == 0 then Stuck else Step(CloseScope(st), ts, depth - 1)
  }

  ghost function ReadTree(lim: Limits, p: Parsed<Tree>, st: St, depth: nat): (r: Step)
    requires StOk(st)
    ensures r.Step? ==> StOk(r.st)
  {
    match p
    case NoParse => Stuck
    case Parsed(t, more) => if depth + Nesting(t) > MAX_DEPTH then Stuck else Step(AddTree(lim, st, t), more, depth)
  }

  ghost function ReadMembers(lim: Limits, p: Parsed<seq<Member>>, st: St, depth: nat): (r: Step)
    requires StOk(st)
    ensures r.Step? ==> StOk(r.st)
  {
    match p
    case NoParse => Stuck
    case Parsed(ms, more) => if depth + NestingMembers(ms) > MAX_DEPTH then Stuck else Step(AddMembers(lim, st, ms), more, depth)
  }

  ghost function ReadItems(lim: Limits, p: Parsed<seq<Tree>>, st: St, depth: nat): (r: Step)
    requires StOk(st)
    ensures r.Step? ==> StOk(r.st)
  {
    match p
    case NoParse => Stuck
    case Parsed(items, more) => if depth + NestingItems(items) > MAX_DEPTH then Stuck else Step(AddItems(lim, st, items), more, depth)
  }

  /** The outcome of the rest of the parse; the top of the stack is the last entry. */
  ghost function Outcome(lim: Limits, ctl: seq<Sym>, ts: seq<Token>, st: St, depth: nat): (r: Option<St>)
    requires StOk(st)
    ensures Ok(r)
    decreases |ctl|
  {
    if ctl == [] then Some(st)
    else
      match ReadSym(lim, ctl[|ctl| - 1], ts, st, depth)
      case Stuck => None
      case Step(st2, ts2, depth2) => Outcome(lim, ctl[..|ctl| - 1], ts2, st2, depth2)
  }

  lemma Top(lim: Limits, rest: seq<Sym>, x: Sym, ts: seq<Token>, st: St, depth: nat)
    requires StOk(st)
    ensures Outcome(lim, rest + [x], ts, st, depth)
         == match ReadSym(lim, x, ts, st, depth)
            case Stuck => None
            case Step(st2, ts2, depth2) => Outcome(lim, rest, ts2, st2, depth2)
  {
    hide ReadSym;
    hide StOk;
    assert (rest + [x])[..|rest|] == rest;
  }

  // ---------------------------------------------------------------- expanding one symbol

  lemma ValueToLeaf(lim: Limits, rest: seq<Sym>, ts: seq<Token>, st: St, depth: nat)
    requires StOk(st) && LiteralKind(Head(ts).kind) && depth <= MAX_DEPTH
    ensures Outcome(lim, rest + [RValue], ts, st, depth) == Outcome(lim, rest + [Term(Head(ts).kind)], ts, st, depth)
  {
    hide StOk;
    hide Outcome;
    hide Push;
    Top(lim, rest, RValue, ts, st, depth);
    Top(lim, rest, Term(Head(ts).kind), ts, st, depth);
  }

  lemma ValueToContainer(lim: Limits, rest: seq<Sym>, ts: seq<Token>, st: St, depth: nat)
    requires StOk(st)
    ensures Head(ts).kind == TBraceOpen ==>
              Outcome(lim, rest + [RValue], ts, st, depth) == Outcome(lim, rest + [RObject], ts, st, depth)
    ensures Head(ts).kind == TBracketOpen ==>
              Outcome(lim, rest + [RValue], ts, st, depth) == Outcome(lim, rest + [RArray], ts, st, depth)
    ensures !LiteralKind(Head(ts).kind) && Head(ts).kind != TBraceOpen && Head(ts).kind != TBracketOpen ==>
              Outcome(lim, rest + [RValue], ts, st, depth) == None
  {
    hide StOk;
    hide Outcome;
    hide ParseObject;
    hide ParseArray;
    hide ReadTree;
    Top(lim, rest, RValue, ts, st, depth);
    Top(lim, rest, RObject, ts, st, depth);
    Top(lim, rest, RArray, ts, st, depth);
    ReadNothing(lim, st, depth);
  }

  lemma ReadNothing(lim: Limits, st: St, depth: nat)
    requires StOk(st)
    ensures ReadTree(lim, NoParse, st, depth) == Stuck
  {
    hide StOk;
  }

  lemma JsonStep(lim: Limits, ts: seq<Token>, st: St, depth: nat)
    requires StOk(st)
    ensures Outcome(lim, [RJson], ts, st, depth) == Outcome(lim, [Term(TEof), RValue], ts, st, depth)
  {
    hide StOk;
    hide Outcome;
    hide ParseValue;
    hide AddTree;
    hide Nesting;
    assert [RJson] == [] + [RJson];
    assert [Term(TEof), RValue] == [Term(TEof)] + [RValue];
    assert [Term(TEof)] == [] + [Term(TEof)];
    Top(lim, [], RJson, ts, st, depth);
    Top(lim, [Term(TEof)], RValue, ts, st, depth);
    match ParseValue(ts) {
      case NoParse =>
      case Parsed(t, more) => Top(lim, [], Term(TEof), more, AddTree(lim, st, t), depth);
    }
  }

  lemma PairStep(lim: Limits, rest: seq<Sym>, ts: seq<Token>, st: St, depth: nat)
    requires StOk(st)
    ensures Outcome(lim, rest + [RPair], ts, st, depth)
         == Outcome(lim, rest + [RValue, Term(TColon), Term(TString)], ts, st, depth)
  {
    hide StOk;
    hide Outcome;
    hide ParseValue;
    hide AddTree;
    hide Nesting;
    hide Push;
    assert rest + [RValue, Term(TColon), Term(TString)] == rest + [RValue, Term(TColon)] + [Term(TString)];
    assert rest + [RValue, Term(TColon)] == rest + [RValue] + [Term(TColon)];
    Top(lim, rest, RPair, ts, st, depth);
    Top(lim, rest + [RValue, Term(TColon)], Term(TString), ts, st, depth);
    if Head(ts).kind == TString {
      var st1 := Push(lim, st, NewNode(AstLeaf, Head(ts)));
      Top(lim, rest + [RValue], Term(TColon), Rest(ts), st1, depth);
      if Head(Rest(ts)).kind == TColon {
        assert Rest(Rest(ts)) == ts[2..];
        Top(lim, rest, RValue, ts[2..], st1, depth);
        OneMember(lim, st, ts[0]);
      }
    }
  }

  lemma OneMember(lim: Limits, st: St, key: Token)
    requires StOk(st)
    ensures forall v: Tree :: AddMembers(lim, st, [Member(key, false, v)])
                              == AddTree(lim, Push(lim, st, NewNode(AstLeaf, key)), v)
  {
    hide StOk;
    hide Push;
    hide AddTree;
    forall v: Tree ensures AddMembers(lim, st, [Member(key, false, v)]) == AddTree(lim, Push(lim, st, NewNode(AstLeaf, key)), v) {
      MembersCons(lim, st, Member(key, false, v), []);
      assert [Member(key, false, v)] + [] == [Member(key, false, v)];
    }
  }

  lemma MembersCons(lim: Limits, st: St, m: Member, ms: seq<Member>)
    requires StOk(st)
    ensures AddMembers(lim, st, [m] + ms)
         == AddMembers(lim, AddTree(lim, Push(lim, st, NewNode(AstLeaf, m.key)), m.val), ms)
    ensures AddMembers(lim, st, []) == st
  {
    hide StOk;
    hide Push;
    hide AddTree;
    assert ([m] + ms)[1..] == ms;
  }

  lemma NestingCons(m: Member, ms: seq<Member>)
    ensures NestingMembers([m] + ms) == if Nesting(m.val) < NestingMembers(ms) then NestingMembers(ms) else Nesting(m.val)
    ensures NestingMembers([]) == 0
  {
    hide Nesting;
    assert ([m] + ms)[1..] == ms;
  }

  lemma MembersStep(lim: Limits, rest: seq<Sym>, ts: seq<Token>, st: St, depth: nat)
    requires StOk(st)
    ensures Outcome(lim, rest + [RMembers], ts, st, depth) == Outcome(lim, rest + [RNextMember, RPair], ts, st, depth)
  {
    hide StOk;
    hide Outcome;
    hide ParsePair;
    hide ParseMoreMembers;
    hide AddMembers;
    hide NestingMembers;
    hide Nesting;
    assert rest + [RNextMember, RPair] == rest + [RNextMember] + [RPair];
    Top(lim, rest, RMembers, ts, st, depth);
    Top(lim, rest + [RNextMember], RPair, ts, st, depth);
    match ParsePair(ts) {
      case NoParse =>
      case Parsed(m, more) =>
        var st1 := AddMembers(lim, st, [m]);
        Top(lim, rest, RNextMember, more, st1, depth);
        match ParseMoreMembers(more) {
          case NoParse =>
          case Parsed(ms, more2) =>
            NestingCons(m, ms);
            MembersCons(lim, st, m, ms);
            MembersCons(lim, st, m, []);
            MembersCons(lim, AddTree(lim, Push(lim, st, NewNode(AstLeaf, m.key)), m.val), m, []);
            assert [m] + [] == [m];
        }
    }
  }

  lemma NextMemberStep(lim: Limits, rest: seq<Sym>, ts: seq<Token>, st: St, depth: nat)
    requires StOk(st) && depth <= MAX_DEPTH
    ensures Head(ts).kind == TComma ==>
              Outcome(lim, rest + [RNextMember], ts, st, depth) == Outcome(lim, rest + [RMembers, Term(TComma)], ts, st, depth)
    ensures Head(ts).kind != TComma ==> Outcome(lim, rest + [RNextMember], ts, st, depth) == Outcome(lim, rest, ts, st, depth)
  {
    hide StOk;
    hide Outcome;
    hide ParseMembers;
    hide AddMembers;
    hide NestingMembers;
    assert rest + [RMembers, Term(TComma)] == rest + [RMembers] + [Term(TComma)];
    Top(lim, rest, RNextMember, ts, st, depth);
    Top(lim, rest + [RMembers], Term(TComma), ts, st, depth);
    Top(lim, rest, RMembers, Rest(ts), st, depth);
    MembersCons(lim, st, Member(COMMA, false, Leaf(false, COMMA)), []);
    NestingCons(Member(COMMA, false, Leaf(false, COMMA)), []);
  }

  lemma ItemsCons(lim: Limits, st: St, x: Tree, items: seq<Tree>)
    requires StOk(st)
    ensures AddItems(lim, st, [x] + items) == AddItems(lim, AddTree(lim, st, x), items)
    ensures AddItems(lim, st, []) == st
    ensures NestingItems([x] + items) == if Nesting(x) < NestingItems(items) then NestingItems(items) else Nesting(x)
    ensures NestingItems([]) == 0
  {
    hide StOk;
    hide AddTree;
    hide Nesting;
    assert ([x] + items)[1..] == items;
  }

  lemma ElementsStep(lim: Limits, rest: seq<Sym>, ts: seq<Token>, st: St, depth: nat)
    requires StOk(st)
    ensures Outcome(lim, rest + [RElements], ts, st, depth) == Outcome(lim, rest + [RNextElement, RValue], ts, st, depth)
  {
    hide StOk;
    hide Outcome;
    hide ParseValue;
    hide ParseMoreElements;
    hide AddItems;
    hide AddTree;
    hide NestingItems;
    hide Nesting;
    assert rest + [RNextElement, RValue] == rest + [RNextElement] + [RValue];
    Top(lim, rest, RElements, ts, st, depth);
    Top(lim, rest + [RNextElement], RValue, ts, st, depth);
    match ParseValue(ts) {
      case NoParse =>
      case Parsed(x, more) =>
        Top(lim, rest, RNextElement, more, AddTree(lim, st, x), depth);
        match ParseMoreElements(more) {
          case NoParse =>
          case Parsed(items, more2) => ItemsCons(lim, st, x, items);
        }
    }
  }

  lemma NextElementStep(lim: Limits, rest: seq<Sym>, ts: seq<Token>, st: St, depth: nat)
    requires StOk(st) && depth <= MAX_DEPTH
    ensures Head(ts).kind == TComma ==>
              Outcome(lim, rest + [RNextElement], ts, st, depth) == Outcome(lim, rest + [RElements, Term(TComma)], ts, st, depth)
    ensures Head(ts).kind != TComma ==> Outcome(lim, rest + [RNextElement], ts, st, depth) == Outcome(lim, rest, ts, st, depth)
  {
    hide StOk;
    hide Outcome;
    hide ParseElements;
    hide AddItems;
    hide NestingItems;
    assert rest + [RElements, Term(TComma)] == rest + [RElements] + [Term(TComma)];
    Top(lim, rest, RNextElement, ts, st, depth);
    Top(lim, rest + [RElements], Term(TComma), ts, st, depth);
    Top(lim, rest, RElements, Rest(ts), st, depth);
    ItemsCons(lim, st, Leaf(false, COMMA), []);
  }

  // ---------------------------------------------------------------- containers

  /** The state after the node of a container has been pushed and its scope opened. */
  ghost function Opened(lim: Limits, st: St, kind: NodeKind, tok: Token): (r: St)
    requires StOk(st)
    ensures StOk(r) && |r.scopes| == |st.scopes| + 3
  {
    OpenScope(Push(lim, st, NewNode(kind, tok)))
  }

  lemma TreeIs(lim: Limits, st: St, t: Tree)
    requires StOk(st)
    ensures t.Obj? ==> AddTree(lim, st, t) == CloseScope(AddMembers(lim, Opened(lim, st, AstObject, BraceToken), t.members))
    ensures t.Arr? ==> AddTree(lim, st, t) == CloseScope(AddItems(lim, Opened(lim, st, AstArray, BracketToken), t.items))
    ensures t.Obj? ==> Nesting(t) == 1 + NestingMembers(t.members)
    ensures t.Arr? ==> Nesting(t) == 1 + NestingItems(t.items)
  {
    hide StOk;
    hide Push;
    hide OpenScope;
    hide CloseScope;
    hide AddMembers;
    hide AddItems;
    hide NestingMembers;
    hide NestingItems;
  }

  lemma CloseObj(lim: Limits, rest: seq<Sym>, ts: seq<Token>, st: St, depth: nat)
    requires StOk(st) && |st.scopes| >= 3
    ensures Outcome(lim, rest + [MarkObject, Term(TBraceClose)], ts, st, depth + 1)
         == if Head(ts).kind == TBraceClose then Outcome(lim, rest, Rest(ts), CloseScope(st), depth) else None
  {
    hide StOk;
    hide Outcome;
    hide CloseScope;
    assert rest + [MarkObject, Term(TBraceClose)] == rest + [MarkObject] + [Term(TBraceClose)];
    Top(lim, rest + [MarkObject], Term(TBraceClose), ts, st, depth + 1);
    Top(lim, rest, MarkObject, Rest(ts), st, depth + 1);
  }

  lemma CloseArr(lim: Limits, rest: seq<Sym>, ts: seq<Token>, st: St, depth: nat)
    requires StOk(st) && |st.scopes| >= 3
    ensures Outcome(lim, rest + [MarkArray, Term(TBracketClose)], ts, st, depth + 1)
         == if Head(ts).kind == TBracketClose then Outcome(lim, rest, Rest(ts), CloseScope(st), depth) else None
  {
    hide StOk;
    hide Outcome;
    hide CloseScope;
    assert rest + [MarkArray, Term(TBracketClose)] == rest + [MarkArray] + [Term(TBracketClose)];
    Top(lim, rest + [MarkArray], Term(TBracketClose), ts, st, depth + 1);
    Top(lim, rest, MarkArray, Rest(ts), st, depth + 1);
  }

  lemma NothingAdded(lim: Limits, st: St)
    requires StOk(st)
    ensures AddMembers(lim, st, []) == st && AddItems(lim, st, []) == st
    ensures NestingMembers([]) == 0 && NestingItems([]) == 0
  {
    hide StOk;
    hide AddTree;
  }

  lemma EmptyObjectStep(lim: Limits, rest: seq<Sym>, ts: seq<Token>, st: St, depth: nat)
    requires StOk(st) && ts != [] && ts[0] == BraceToken && Head(Rest(ts)).kind == TBraceClose && depth < MAX_DEPTH
    ensures Outcome(lim, rest + [RObject], ts, st, depth)
         == Outcome(lim, rest + [MarkObject, Term(TBraceClose), Term(TBraceOpen)], ts, Opened(lim, st, AstObject, BraceToken), depth + 1)
  {
    hide StOk;
    hide Outcome;
    hide AddTree;
    hide AddMembers;
    hide NestingMembers;
    hide ParseMembers;
    hide Opened;
    hide CloseScope;
    var o := Opened(lim, st, AstObject, BraceToken);
    assert rest + [MarkObject, Term(TBraceClose), Term(TBraceOpen)] == rest + [MarkObject, Term(TBraceClose)] + [Term(TBraceOpen)];
    Top(lim, rest, RObject, ts, st, depth);
    Top(lim, rest + [MarkObject, Term(TBraceClose)], Term(TBraceOpen), ts, o, depth + 1);
    CloseObj(lim, rest, Rest(ts), o, depth);
    TreeIs(lim, st, Obj(false, []));
    NothingAdded(lim, o);
  }

  lemma ObjectStep(lim: Limits, rest: seq<Sym>, ts: seq<Token>, st: St, depth: nat)
    requires StOk(st) && ts != [] && ts[0] == BraceToken && Head(Rest(ts)).kind != TBraceClose && depth < MAX_DEPTH
    ensures Outcome(lim, rest + [RObject], ts, st, depth)
         == Outcome(lim, rest + [MarkObject, Term(TBraceClose), RMembers, Term(TBraceOpen)], ts, Opened(lim, st, AstObject, BraceToken), depth + 1)
  {
    hide StOk;
    hide Outcome;
    hide AddTree;
    hide AddMembers;
    hide Opened;
    hide Nesting;
    hide NestingMembers;
    hide CloseScope;
    hide ParseMembers;
    var o := Opened(lim, st, AstObject, BraceToken);
    assert rest + [MarkObject, Term(TBraceClose), RMembers, Term(TBraceOpen)]
        == rest + [MarkObject, Term(TBraceClose), RMembers] + [Term(TBraceOpen)];
    assert rest + [MarkObject, Term(TBraceClose), RMembers] == rest + [MarkObject, Term(TBraceClose)] + [RMembers];
    Top(lim, rest, RObject, ts, st, depth);
    Top(lim, rest + [MarkObject, Term(TBraceClose), RMembers], Term(TBraceOpen), ts, o, depth + 1);
    Top(lim, rest + [MarkObject, Term(TBraceClose)], RMembers, Rest(ts), o, depth + 1);
    match ParseMembers(Rest(ts)) {
      case NoParse =>
      case Parsed(xs, more) =>
        TreeIs(lim, st, Obj(false, xs));
        CloseObj(lim, rest, more, AddMembers(lim, o, xs), depth);
    }
  }

  lemma EmptyArrayStep(lim: Limits, rest: seq<Sym>, ts: seq<Token>, st: St, depth: nat)
    requires StOk(st) && ts != [] && ts[0] == BracketToken && Head(Rest(ts)).kind == TBracketClose && depth < MAX_DEPTH
    ensures Outcome(lim, rest + [RArray], ts, st, depth)
         == Outcome(lim, rest + [MarkArray, Term(TBracketClose), Term(TBracketOpen)], ts, Opened(lim, st, AstArray, BracketToken), depth + 1)
  {
    hide StOk;
    hide Outcome;
    hide AddTree;
    hide Opened;
    hide CloseScope;
    var o := Opened(lim, st, AstArray, BracketToken);
    assert rest + [MarkArray, Term(TBracketClose), Term(TBracketOpen)] == rest + [MarkArray, Term(TBracketClose)] + [Term(TBracketOpen)];
    Top(lim, rest, RArray, ts, st, depth);
    Top(lim, rest + [MarkArray, Term(TBracketClose)], Term(TBracketOpen), ts, o, depth + 1);
    CloseArr(lim, rest, Rest(ts), o, depth);
    TreeIs(lim, st, Arr(false, []));
    NothingAdded(lim, o);
  }

  lemma ArrayStep(lim: Limits, rest: seq<Sym>, ts: seq<Token>, st: St, depth: nat)
    requires StOk(st) && ts != [] && ts[0] == BracketToken && Head(Rest(ts)).kind != TBracketClose && depth < MAX_DEPTH
    ensures Outcome(lim, rest + [RArray], ts, st, depth)
         == Outcome(lim, rest + [MarkArray, Term(TBracketClose), RElements, Term(TBracketOpen)], ts, Opened(lim, st, AstArray, BracketToken), depth + 1)
  {
    hide StOk;
    hide Outcome;
    hide AddTree;
    hide AddItems;
    hide Opened;
    hide Nesting;
    hide NestingItems;
    hide CloseScope;
    hide ParseElements;
    var o := Opened(lim, st, AstArray, BracketToken);
    assert rest + [MarkArray, Term(TBracketClose), RElements, Term(TBracketOpen)]
        == rest + [MarkArray, Term(TBracketClose), RElements] + [Term(TBracketOpen)];
    assert rest + [MarkArray, Term(TBracketClose), RElements] == rest + [MarkArray, Term(TBracketClose)] + [RElements];
    Top(lim, rest, RArray, ts, st, depth);
    Top(lim, rest + [MarkArray, Term(TBracketClose), RElements], Term(TBracketOpen), ts, o, depth + 1);
    Top(lim, rest + [MarkArray, Term(TBracketClose)], RElements, Rest(ts), o, depth + 1);
    match ParseElements(Rest(ts)) {
      case NoParse =>
      case Parsed(xs, more) =>
        TreeIs(lim, st, Arr(false, xs));
        CloseArr(lim, rest, more, AddItems(lim, o, xs), depth);
    }
  }

  /** Beyond the depth limit nothing is read. */
  lemma TooDeep(lim: Limits, rest: seq<Sym>, ts: seq<Token>, st: St, depth: nat)
    requires StOk(st) && depth >= MAX_DEPTH
    ensures Outcome(lim, rest + [RObject], ts, st, depth) == None
    ensures Outcome(lim, rest + [RArray], ts, st, depth) == None
  {
    hide StOk;
    hide Outcome;
    hide AddTree;
    hide ParseMembers;
    hide ParseElements;
    hide NestingMembers;
    hide NestingItems;
    Top(lim, rest, RObject, ts, st, depth);
    Top(lim, rest, RArray, ts, st, depth);
    if ts != [] {
      Containers(ts);
    }
  }

  lemma Containers(ts: seq<Token>)
    requires ts != []
    ensures ParseObject(ts).Parsed? ==> ParseObject(ts).value.Obj?
    ensures ParseArray(ts).Parsed? ==> ParseArray(ts).value.Arr?
  {
    hide ParseMembers;
    hide ParseElements;
  }
}
