/** What each instruction demands of a value, and the values the validator is run on. */
module Meaning {
  import opened Bytes
  import opened Ast
  import opened Unescape
  import opened Keywords
  import opened Semantics
  import opened Layout
  import opened Code
  import opened Walk

  // ---------------------------------------------------------------- values

  /** A value as the parser leaves it: nothing skipped but duplicate members, string keys,
      tokens as the lexer makes them. */
  ghost predicate Sane(d: Tree)
    decreases d
  {
    !d.skip &&
    match d
    case Leaf(_, tok) => WfToken(tok) && LiteralKind(tok.kind)
    case Arr(_, items) => forall i :: 0 <= i < |items| ==> Sane(items[i])
    case Obj(_, ms) =>
      forall i :: 0 <= i < |ms| ==> SaneMember(ms[i])
  }

  ghost predicate SaneMember(m: Member)
    decreases m
  {
    m.key.kind == TString && WfToken(m.key) && (!m.keySkip ==> assert m.val < m; Sane(m.val))
  }

  lemma SaneItem(d: Tree, i: nat)
    requires Sane(d) && d.Arr? && i < |d.items|
    ensures Sane(d.items[i])
  {
    hide WfToken;
    hide SaneMember;
  }

  lemma SaneKey(d: Tree, i: nat)
    requires Sane(d) && d.Obj? && i < |d.members|
    ensures d.members[i].key.kind == TString && WfToken(d.members[i].key)
    ensures !d.members[i].keySkip ==> Sane(d.members[i].val) && Sane(Leaf(false, d.members[i].key))
  {
    hide WfToken;
    assert SaneMember(d.members[i]);
  }

  lemma SaneNode(pool: seq<Node>, i: nat, d: Tree)
    requires At(pool, i, d) && Sane(d)
    ensures i < |pool| && pool[i].tok == TokenOf(d)
    ensures pool[i].kind == AstLeaf <==> d.Leaf?
    ensures pool[i].kind == AstArray <==> d.Arr?
    ensures pool[i].kind == AstObject <==> d.Obj?
    ensures d.Leaf? ==> WfToken(d.tok) && LiteralKind(d.tok.kind) && TokenOf(d) == d.tok
  {
    hide ItemsAt;
    hide MembersAt;
    hide WfToken;
    hide SaneMember;
  }

  /** Quotes are never stripped from a token the lexer made. */
  lemma NothingStripped(t: Token)
    requires WfToken(t) && t.kind == TString
    ensures StripQuotes(t.raw) == t.raw
  {
  }

  // ---------------------------------------------------------------- instructions

  /** Position of the first rule of this name, or the number of rules. */
  function FirstRule(rules: seq<Rule>, name: bytes): (i: nat)
    ensures i <= |rules|
    ensures i < |rules| ==> rules[i].name == name
    ensures forall j :: 0 <= j < i ==> rules[j].name != name
  {
    if rules == [] || rules[0].name == name then 0 else 1 + FirstRule(rules[1..], name)
  }

  function RuleMatch(env: Env, r: Rule, key: bytes): MatchResult {
    env.regex(CStr(r.name), CStr(key))
  }

  predicate PatternHolds(env: Env, r: Rule, key: bytes, x: Tree) {
    match RuleMatch(env, r, key)
    case Match => Accepts(env, r.ref.sub, x)
    case NoMatch => true
    case NoCompile => false
  }

  predicate AnyMatches(env: Env, props: seq<Rule>, pats: seq<Rule>, key: bytes) {
    FirstRule(props, key) < |props| || exists p :: 0 <= p < |pats| && RuleMatch(env, pats[p], key) == Match
  }

  predicate AddHolds(env: Env, add: AddRule, x: Tree) {
    match add
    case Allowed => true
    case Denied => false
    case Checked(ref) => Accepts(env, ref.sub, x)
  }

  /** What the property rules demand of one member. */
  predicate MemberHolds(env: Env, add: AddRule, props: seq<Rule>, pats: seq<Rule>, key: bytes, x: Tree) {
    && (FirstRule(props, key) < |props| ==> Accepts(env, props[FirstRule(props, key)].ref.sub, x))
    && (forall p :: 0 <= p < |pats| ==> PatternHolds(env, pats[p], key, x))
    && (!AnyMatches(env, props, pats, key) ==> AddHolds(env, add, x))
  }

  predicate PropsHold(env: Env, add: AddRule, props: seq<Rule>, pats: seq<Rule>, d: Tree) {
    d.Obj? ==>
      forall j :: 0 <= j < |d.members| && !d.members[j].keySkip
        ==> MemberHolds(env, add, props, pats, Text(d.members[j].key), d.members[j].val)
  }

  predicate SubHolds(env: Env, k: Kw, v: Tree, d: Tree) {
    match k
    case KItems => ItemsOk(env, v, d)
    case KContains => ContainsOk(env, v, d)
    case KNot => !Accepts(env, v, d)
    case KPropertyNames => NamesOk(env, v, d)
    case _ => true
  }

  predicate ManyHolds(env: Env, k: Kw, refs: seq<Ref>, d: Tree) {
    match k
    case KAllOf => forall j :: 0 <= j < |refs| ==> Accepts(env, refs[j].sub, d)
    case KAnyOf => exists j :: 0 <= j < |refs| && Accepts(env, refs[j].sub, d)
    case KOneOf => Passing(env, refs, d) == 1
    case _ => true
  }

  /** How many of the referenced schemas accept. */
  function Passing(env: Env, refs: seq<Ref>, d: Tree): nat {
    if refs == [] then 0
    else Passing(env, refs[..|refs| - 1], d) + (if Accepts(env, refs[|refs| - 1].sub, d) then 1 else 0)
  }

  predicate BranchHolds(env: Env, branch: Option<Ref>, d: Tree) {
    branch.Some? ==> Accepts(env, branch.value.sub, d)
  }

  predicate InstrHolds(env: Env, i: Instr, d: Tree) {
    match i
    case TypeI(types) => HasType(env, types, d)
    case NumI(k, bits) => NumberOk(env, k, bits, d)
    case CountI(k, n) => CountOk(k, n, d)
    case UniqueI => Unique(env, d)
    case StrI(k, s) => StringOk(env, k, s, d)
    case SubI(k, ref) => SubHolds(env, k, ref.sub, d)
    case ManyI(k, _, refs) => ManyHolds(env, k, refs, d)
    case IfI(cond, thn, els) => BranchHolds(env, if Accepts(env, cond.sub, d) then thn else els, d)
    case RequiredI(_, names) => d.Obj? ==> forall j :: 0 <= j < |names| ==> HasKey(d, CStr(names[j]))
    case PropsI(_, _, add, props, pats) => PropsHold(env, add, props, pats, d)
  }

  /** What is no schema accepts everything, so it needs no block. */
  lemma InvalidAccepts(env: Env, v: Tree, d: Tree)
    requires !ValidSub(v)
    ensures Accepts(env, v, d)
  {
    hide Asserts;
  }
}
