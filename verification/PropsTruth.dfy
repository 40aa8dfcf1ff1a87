/** The three property keywords share one instruction; it demands what they demand together. */
module PropsTruth {
  import opened Bytes
  import opened Ast
  import opened Unescape
  import opened Keywords
  import opened Semantics
  import opened Layout
  import opened Code
  import opened Cover
  import opened Emission
  import opened Meaning
  import opened Truth

  /** The members of the object under member `i`. */
  function Under(ms: seq<Member>, i: nat): seq<Member> {
    if i < |ms| && IsObject(ms[i].val) then ms[i].val.members else []
  }

  ghost predicate RulesFor(rules: seq<Rule>, ps: seq<Member>) {
    && |rules| == |ps|
    && forall j :: 0 <= j < |ps| ==> rules[j].name == Text(ps[j].key) && rules[j].ref.sub == ps[j].val
  }

  lemma RulesOfAre(pos: nat, ps: seq<Member>)
    ensures RulesFor(RulesOf(pos, ps), ps)
  {
    hide Text;
    hide RulesOf;
    hide MemberPos;
    forall j | 0 <= j < |ps| ensures RulesOf(pos, ps)[j].name == Text(ps[j].key) && RulesOf(pos, ps)[j].ref.sub == ps[j].val {
      RuleAt(pos, ps, j);
    }
  }

  lemma ManyRules(rel: nat, v: Tree)
    requires v.Obj?
    ensures RulesFor(RulesIn(Many(Ref(rel, v), |v.members|)), v.members)
    ensures CountIn(Many(Ref(rel, v), |v.members|)) == |v.members|
    ensures RulesIn(Empty) == [] && CountIn(Empty) == 0
  {
    hide Text;
    hide RulesOf;
    RulesOfAre(rel + 1, v.members);
  }

  lemma EmptyRules()
    ensures RulesFor(RulesIn(Empty), []) && CountIn(Empty) == 0
  {
  }

  lemma UnderIs(ms: seq<Member>, i: nat)
    ensures i < |ms| && IsObject(ms[i].val) ==> ms[i].val.Obj? && Under(ms, i) == ms[i].val.members
    ensures !(i < |ms| && IsObject(ms[i].val)) ==> Under(ms, i) == []
  {
  }

  lemma SlotRulesFor(env: Env, ms: seq<Member>, k: Kw, i: nat)
    requires IsPropsKw(k) && Effective(env, ms, k, i)
    ensures RulesFor(RulesIn(Get(FieldsUpTo(env, ms, |ms|), k)), Under(ms, i))
    ensures CountIn(Get(FieldsUpTo(env, ms, |ms|), k)) == |Under(ms, i)|
  {
    hide *;
    EffectiveMeans(env, ms, k, i);
    UnderIs(ms, i);
    EmptyRules();
    if i < |ms| {
      PropsUpdates(env, k, PosOf(ms, i) + 1, ms[i].val);
      if IsObject(ms[i].val) {
        ManyRules(PosOf(ms, i) + 1, ms[i].val);
      }
    }
  }

  // ---------------------------------------------------------------- one member of the value

  lemma {:induction false} FirstAgrees(rules: seq<Rule>, ps: seq<Member>, name: bytes)
    requires RulesFor(rules, ps)
    ensures FirstRule(rules, name) == FirstNamed(ps, name)
  {
    hide Text;
    if ps != [] {
      FirstAgrees(rules[1..], ps[1..], name);
    }
  }

  /** `properties` lets the member pass. */
  ghost predicate PropPasses(env: Env, ms: seq<Member>, p: nat, key: Token, x: Tree) {
    p < |ms| && IsObject(ms[p].val) ==> PropertyOk(env, ms[p].val, key, x)
  }

  ghost predicate PatsPass(env: Env, ms: seq<Member>, q: nat, key: Token, x: Tree) {
    q < |ms| && IsObject(ms[q].val) ==> forall t :: 0 <= t < |ms[q].val.members| ==> PatternOk(env, ms[q].val, t, key, x)
  }

  ghost predicate AddPasses(env: Env, ms: seq<Member>, a: nat, key: Token, x: Tree) {
    a < |ms| && ValidSub(ms[a].val) && !Covered(env, ms, key) ==> Accepts(env, ms[a].val, x)
  }

  lemma PropAgrees(env: Env, ms: seq<Member>, p: nat, rules: seq<Rule>, key: Token, x: Tree)
    requires RulesFor(rules, Under(ms, p))
    ensures PropPasses(env, ms, p, key, x)
         <==> (FirstRule(rules, Text(key)) < |rules| ==> Accepts(env, rules[FirstRule(rules, Text(key))].ref.sub, x))
  {
    hide Accepts;
    hide Text;
    hide FirstRule;
    hide FirstNamed;
    FirstAgrees(rules, Under(ms, p), Text(key));
  }

  lemma PatternAgrees(env: Env, v: Tree, t: nat, r: Rule, key: Token, x: Tree)
    requires v.Obj? && t < |v.members| && r.name == Text(v.members[t].key) && r.ref.sub == v.members[t].val
    ensures PatternOk(env, v, t, key, x) == PatternHolds(env, r, Text(key), x)
    ensures PatternResult(env, v.members[t].key, key) == RuleMatch(env, r, Text(key))
  {
    hide Accepts;
    hide Text;
    hide CStr;
  }

  lemma PatsAgree(env: Env, ms: seq<Member>, q: nat, rules: seq<Rule>, key: Token, x: Tree)
    requires RulesFor(rules, Under(ms, q))
    ensures PatsPass(env, ms, q, key, x) <==> forall t :: 0 <= t < |rules| ==> PatternHolds(env, rules[t], Text(key), x)
  {
    hide PatternOk;
    hide PatternHolds;
    hide Text;
    if q < |ms| && IsObject(ms[q].val) {
      forall t | 0 <= t < |rules| ensures PatternOk(env, ms[q].val, t, key, x) == PatternHolds(env, rules[t], Text(key), x) {
        PatternAgrees(env, ms[q].val, t, rules[t], key, x);
      }
    }
  }

  lemma CoveredProp(env: Env, m: Member, key: Token, rules: seq<Rule>, ms: seq<Member>, p: nat)
    requires p < |ms| && m == ms[p] && KwOf(m) == KProperties && RulesFor(rules, Under(ms, p))
    ensures CoveredBy(env, m, key) <==> FirstRule(rules, Text(key)) < |rules|
  {
    hide Text;
    hide FirstRule;
    hide FirstNamed;
    hide KwOf;
    FirstAgrees(rules, Under(ms, p), Text(key));
  }

  lemma CoveredPat(env: Env, m: Member, key: Token, rules: seq<Rule>, ms: seq<Member>, q: nat)
    requires q < |ms| && m == ms[q] && KwOf(m) == KPatternProperties && RulesFor(rules, Under(ms, q))
    ensures CoveredBy(env, m, key) <==> exists t :: 0 <= t < |rules| && RuleMatch(env, rules[t], Text(key)) == Match
  {
    hide Text;
    hide PatternResult;
    hide RuleMatch;
    hide KwOf;
    if IsObject(m.val) {
      forall t | 0 <= t < |rules| ensures PatternResult(env, m.val.members[t].key, key) == RuleMatch(env, rules[t], Text(key)) {
        PatternAgrees(env, m.val, t, rules[t], key, m.val);
      }
    }
  }

  lemma NoneCovers(env: Env, ms: seq<Member>, i: nat, rules: seq<Rule>, key: bytes)
    requires i >= |ms| && RulesFor(rules, Under(ms, i))
    ensures rules == []
    ensures FirstRule(rules, key) >= |rules|
    ensures !exists t :: 0 <= t < |rules| && RuleMatch(env, rules[t], key) == Match
  {
    hide RuleMatch;
    hide Text;
  }

  /** A member of the schema covers the key exactly when some rule matches it. */
  lemma CoverAgrees(env: Env, ms: seq<Member>, p: nat, q: nat, rs: seq<Rule>, qs: seq<Rule>, key: Token)
    requires Effective(env, ms, KProperties, p) && Effective(env, ms, KPatternProperties, q)
    requires RulesFor(rs, Under(ms, p)) && RulesFor(qs, Under(ms, q))
    ensures Covered(env, ms, key) <==> AnyMatches(env, rs, qs, Text(key))
  {
    hide *;
    AnyIs(env, rs, qs, Text(key));
    EffectiveMeans(env, ms, KProperties, p);
    EffectiveMeans(env, ms, KPatternProperties, q);
    if p < |ms| {
      CoveredProp(env, ms[p], key, rs, ms, p);
    } else {
      NoneCovers(env, ms, p, rs, Text(key));
    }
    if q < |ms| {
      CoveredPat(env, ms[q], key, qs, ms, q);
    } else {
      NoneCovers(env, ms, q, qs, Text(key));
    }
    OnlyThese(env, ms, p, q, key);
  }

  lemma AnyIs(env: Env, rs: seq<Rule>, qs: seq<Rule>, key: bytes)
    ensures AnyMatches(env, rs, qs, key) <==>
            FirstRule(rs, key) < |rs| || exists t :: 0 <= t < |qs| && RuleMatch(env, qs[t], key) == Match
  {
    hide RuleMatch;
    hide FirstRule;
  }

  lemma CoversTakes(env: Env, m: Member, key: Token)
    requires CoveredBy(env, m, key)
    ensures (KwOf(m) == KProperties || KwOf(m) == KPatternProperties) && TakesOver(KwOf(m), m.val)
  {
    hide KwOf;
  }

  lemma OnlyThese(env: Env, ms: seq<Member>, p: nat, q: nat, key: Token)
    requires Effective(env, ms, KProperties, p) && Effective(env, ms, KPatternProperties, q)
    ensures Covered(env, ms, key) <==> (p < |ms| && CoveredBy(env, ms[p], key)) || (q < |ms| && CoveredBy(env, ms[q], key))
  {
    hide CoveredBy;
    hide KwOf;
    hide TakesOver;
    hide Replaced;
    hide Effective;
    EffectiveMeans(env, ms, KProperties, p);
    EffectiveMeans(env, ms, KPatternProperties, q);
    hide FieldsUpTo;
    hide Update;
    hide Get;
    if i :| 0 <= i < |ms| && !Replaced(ms, i) && CoveredBy(env, ms[i], key) {
      CoversTakes(env, ms[i], key);
      EffectiveIs(env, ms, KwOf(ms[i]), if KwOf(ms[i]) == KProperties then p else q, i);
    }
  }

  /** What the slot of `additionalProperties` says. */
  lemma AddAgrees(env: Env, ms: seq<Member>, a: nat, x: Tree)
    requires Effective(env, ms, KAdditionalProperties, a)
    ensures AddHolds(env, AddRuleOf(Get(FieldsUpTo(env, ms, |ms|), KAdditionalProperties)), x)
         <==> (a < |ms| && ValidSub(ms[a].val) ==> Accepts(env, ms[a].val, x))
    ensures Get(FieldsUpTo(env, ms, |ms|), KAdditionalProperties).Sub? <==> a < |ms|
  {
    hide *;
    EffectiveMeans(env, ms, KAdditionalProperties, a);
    if a < |ms| {
      AdditionalUpdates(env, PosOf(ms, a) + 1, ms[a].val);
      AddOfSub(env, PosOf(ms, a) + 1, ms[a].val, x);
    } else {
      AddOfEmpty(env, x);
    }
  }

  lemma AddOfSub(env: Env, rel: nat, v: Tree, x: Tree)
    ensures AddHolds(env, AddRuleOf(Sub(Ref(rel, v))), x) <==> (ValidSub(v) ==> Accepts(env, v, x))
  {
    if IsFalse(v) {
      hide Asserts;
      assert !Accepts(env, v, x);
    } else {
      hide Accepts;
    }
  }

  lemma AddOfEmpty(env: Env, x: Tree)
    ensures AddHolds(env, AddRuleOf(Empty), x)
  {
  }

  lemma MemberIs(env: Env, add: AddRule, rs: seq<Rule>, qs: seq<Rule>, key: bytes, x: Tree)
    ensures MemberHolds(env, add, rs, qs, key, x) <==>
            && (FirstRule(rs, key) < |rs| ==> Accepts(env, rs[FirstRule(rs, key)].ref.sub, x))
            && (forall t :: 0 <= t < |qs| ==> PatternHolds(env, qs[t], key, x))
            && (AnyMatches(env, rs, qs, key) || AddHolds(env, add, x))
  {
    hide Accepts;
    hide FirstRule;
    hide PatternHolds;
    hide AnyMatches;
    hide AddHolds;
  }

  lemma MemberAgrees(env: Env, ms: seq<Member>, f: Fields, p: nat, q: nat, a: nat, key: Token, x: Tree)
    requires f == FieldsUpTo(env, ms, |ms|)
    requires Effective(env, ms, KProperties, p) && Effective(env, ms, KPatternProperties, q) && Effective(env, ms, KAdditionalProperties, a)
    ensures MemberHolds(env, AddRuleOf(Get(f, KAdditionalProperties)), RulesIn(Get(f, KProperties)), RulesIn(Get(f, KPatternProperties)), Text(key), x)
         <==> PropPasses(env, ms, p, key, x) && PatsPass(env, ms, q, key, x) && AddPasses(env, ms, a, key, x)
  {
    hide *;
    var rs, qs := RulesIn(Get(f, KProperties)), RulesIn(Get(f, KPatternProperties));
    PropsNames();
    SlotRulesFor(env, ms, KProperties, p);
    SlotRulesFor(env, ms, KPatternProperties, q);
    MemberIs(env, AddRuleOf(Get(f, KAdditionalProperties)), rs, qs, Text(key), x);
    PropAgrees(env, ms, p, rs, key, x);
    PatsAgree(env, ms, q, qs, key, x);
    CoverAgrees(env, ms, p, q, rs, qs, key);
    AddAgrees(env, ms, a, x);
    AddPassesIs(env, ms, a, key, x);
  }

  lemma AddPassesIs(env: Env, ms: seq<Member>, a: nat, key: Token, x: Tree)
    ensures AddPasses(env, ms, a, key, x) <==> (a < |ms| && ValidSub(ms[a].val) && !Covered(env, ms, key) ==> Accepts(env, ms[a].val, x))
  {
    hide Accepts;
    hide ValidSub;
    hide Covered;
  }

  // ---------------------------------------------------------------- the whole value

  ghost predicate AllPass(env: Env, ms: seq<Member>, p: nat, q: nat, a: nat, d: Tree)
    requires d.Obj?
  {
    forall j :: 0 <= j < |d.members| && !d.members[j].keySkip ==>
      PropPasses(env, ms, p, d.members[j].key, d.members[j].val)
      && PatsPass(env, ms, q, d.members[j].key, d.members[j].val)
      && AddPasses(env, ms, a, d.members[j].key, d.members[j].val)
  }

  lemma HoldsAll(env: Env, ms: seq<Member>, f: Fields, p: nat, q: nat, a: nat, d: Tree)
    requires f == FieldsUpTo(env, ms, |ms|) && d.Obj?
    requires Effective(env, ms, KProperties, p) && Effective(env, ms, KPatternProperties, q) && Effective(env, ms, KAdditionalProperties, a)
    ensures PropsHold(env, AddRuleOf(Get(f, KAdditionalProperties)), RulesIn(Get(f, KProperties)), RulesIn(Get(f, KPatternProperties)), d)
         <==> AllPass(env, ms, p, q, a, d)
  {
    var add, rs, qs := AddRuleOf(Get(f, KAdditionalProperties)), RulesIn(Get(f, KProperties)), RulesIn(Get(f, KPatternProperties));
    var xs := d.members;
    hide *;
    forall j | 0 <= j < |xs|
      ensures MemberHolds(env, add, rs, qs, Text(xs[j].key), xs[j].val)
         <==> PropPasses(env, ms, p, xs[j].key, xs[j].val) && PatsPass(env, ms, q, xs[j].key, xs[j].val) && AddPasses(env, ms, a, xs[j].key, xs[j].val)
    {
      MemberAgrees(env, ms, f, p, q, a, xs[j].key, xs[j].val);
    }
    PropsHoldIs(env, add, rs, qs, d);
    AllPassIs(env, ms, p, q, a, d);
  }

  lemma PropsHoldIs(env: Env, add: AddRule, rs: seq<Rule>, qs: seq<Rule>, d: Tree)
    requires d.Obj?
    ensures PropsHold(env, add, rs, qs, d)
         <==> forall j :: 0 <= j < |d.members| && !d.members[j].keySkip
                ==> MemberHolds(env, add, rs, qs, Text(d.members[j].key), d.members[j].val)
  {
    hide MemberHolds;
    hide Text;
  }

  lemma AllPassIs(env: Env, ms: seq<Member>, p: nat, q: nat, a: nat, d: Tree)
    requires d.Obj?
    ensures AllPass(env, ms, p, q, a, d)
         <==> forall j :: 0 <= j < |d.members| && !d.members[j].keySkip ==>
                PropPasses(env, ms, p, d.members[j].key, d.members[j].val)
                && PatsPass(env, ms, q, d.members[j].key, d.members[j].val)
                && AddPasses(env, ms, a, d.members[j].key, d.members[j].val)
  {
    hide PropPasses;
    hide PatsPass;
    hide AddPasses;
  }
}
