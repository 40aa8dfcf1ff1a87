/** A schema node accepts a value exactly when every instruction compiled for it holds. */
module NodeTruth {
  import opened Bytes
  import opened Ast
  import opened Keywords
  import opened Semantics
  import opened Layout
  import opened Code
  import opened Sizes
  import opened Agreement
  import opened PoolSizes
  import opened Emission
  import opened NodeEmission
  import opened Meaning
  import opened Truth
  import opened PropsTruth

  // ---------------------------------------------------------------- the property keywords

  lemma PropPart(env: Env, s: Tree, p: nat, d: Tree)
    requires s.Obj? && d.Obj? && (p < |s.members| ==> KwOf(s.members[p]) == KProperties)
    ensures (p < |s.members| ==> Asserts(env, s, p, d))
         <==> forall j :: 0 <= j < |d.members| && !d.members[j].keySkip ==> PropPasses(env, s.members, p, d.members[j].key, d.members[j].val)
  {
    hide Asserts;
    hide PropertyOk;
    hide IsObject;
    hide KwOf;
    if p < |s.members| {
      AssertsProperties(env, s, p, d);
    }
  }

  lemma PatsPart(env: Env, s: Tree, q: nat, d: Tree)
    requires s.Obj? && d.Obj? && (q < |s.members| ==> KwOf(s.members[q]) == KPatternProperties)
    ensures (q < |s.members| ==> Asserts(env, s, q, d))
         <==> forall j :: 0 <= j < |d.members| && !d.members[j].keySkip ==> PatsPass(env, s.members, q, d.members[j].key, d.members[j].val)
  {
    hide Asserts;
    hide PatternOk;
    hide KwOf;
    if q < |s.members| {
      AssertsPatterns(env, s, q, d);
      if IsObject(s.members[q].val) {
        PatternsSplit(env, s.members, q, d);
      }
    }
  }

  lemma PatternsSplit(env: Env, ms: seq<Member>, q: nat, d: Tree)
    requires d.Obj? && q < |ms| && IsObject(ms[q].val)
    ensures PatternsOk(env, ms[q].val, d)
         <==> forall j :: 0 <= j < |d.members| && !d.members[j].keySkip ==> PatsPass(env, ms, q, d.members[j].key, d.members[j].val)
  {
    hide PatternOk;
    var v := ms[q].val;
    if PatternsOk(env, v, d) {
      forall j | 0 <= j < |d.members| && !d.members[j].keySkip ensures PatsPass(env, ms, q, d.members[j].key, d.members[j].val) {
      }
    }
    if forall j :: 0 <= j < |d.members| && !d.members[j].keySkip ==> PatsPass(env, ms, q, d.members[j].key, d.members[j].val) {
      forall j, p | 0 <= j < |d.members| && !d.members[j].keySkip && 0 <= p < |v.members|
        ensures PatternOk(env, v, p, d.members[j].key, d.members[j].val)
      {
        assert PatsPass(env, ms, q, d.members[j].key, d.members[j].val);
      }
    }
  }

  lemma AddPart(env: Env, s: Tree, a: nat, d: Tree)
    requires s.Obj? && d.Obj? && (a < |s.members| ==> KwOf(s.members[a]) == KAdditionalProperties)
    ensures (a < |s.members| ==> Asserts(env, s, a, d))
         <==> forall j :: 0 <= j < |d.members| && !d.members[j].keySkip ==> AddPasses(env, s.members, a, d.members[j].key, d.members[j].val)
  {
    hide Asserts;
    hide Accepts;
    hide Covered;
    hide ValidSub;
    hide KwOf;
    if a < |s.members| {
      AssertsAdditional(env, s, a, d);
    }
  }

  ghost predicate PropsAssert(env: Env, s: Tree, p: nat, q: nat, a: nat, d: Tree)
    requires s.Obj?
  {
    && (p < |s.members| ==> Asserts(env, s, p, d))
    && (q < |s.members| ==> Asserts(env, s, q, d))
    && (a < |s.members| ==> Asserts(env, s, a, d))
  }

  lemma PropsAssertObject(env: Env, s: Tree, p: nat, q: nat, a: nat, d: Tree)
    requires s.Obj? && d.Obj?
    requires p < |s.members| ==> KwOf(s.members[p]) == KProperties
    requires q < |s.members| ==> KwOf(s.members[q]) == KPatternProperties
    requires a < |s.members| ==> KwOf(s.members[a]) == KAdditionalProperties
    ensures PropsAssert(env, s, p, q, a, d) <==> AllPass(env, s.members, p, q, a, d)
  {
    hide Asserts;
    hide PropPasses;
    hide PatsPass;
    hide AddPasses;
    hide KwOf;
    PropPart(env, s, p, d);
    PatsPart(env, s, q, d);
    AddPart(env, s, a, d);
    AllPassIs(env, s.members, p, q, a, d);
  }

  lemma PropsAssertOther(env: Env, s: Tree, p: nat, q: nat, a: nat, d: Tree)
    requires s.Obj? && !d.Obj?
    requires p < |s.members| ==> KwOf(s.members[p]) == KProperties
    requires q < |s.members| ==> KwOf(s.members[q]) == KPatternProperties
    requires a < |s.members| ==> KwOf(s.members[a]) == KAdditionalProperties
    ensures PropsAssert(env, s, p, q, a, d)
  {
    hide Asserts;
    hide KwOf;
    hide ValidSub;
    hide IsObject;
    if p < |s.members| {
      AssertsProperties(env, s, p, d);
    }
    if q < |s.members| {
      AssertsPatterns(env, s, q, d);
    }
    if a < |s.members| {
      AssertsAdditional(env, s, a, d);
    }
  }

  lemma NoRulesHold(env: Env, add: AddRule, rs: seq<Rule>, qs: seq<Rule>, d: Tree)
    requires rs == [] && qs == [] && add.Allowed?
    ensures PropsHold(env, add, rs, qs, d)
  {
  }

  lemma PropsInstrHolds(env: Env, np: nat, npp: nat, add: AddRule, rs: seq<Rule>, qs: seq<Rule>, d: Tree)
    ensures InstrHolds(env, PropsI(np, npp, add, rs, qs), d) == PropsHold(env, add, rs, qs, d)
    ensures !d.Obj? ==> PropsHold(env, add, rs, qs, d)
  {
    hide MemberHolds;
  }

  lemma EffectiveKw(env: Env, ms: seq<Member>, k: Kw, i: nat)
    requires Effective(env, ms, k, i)
    ensures i < |ms| ==> KwOf(ms[i]) == k && !Replaced(ms, i)
  {
    hide KwOf;
    hide TakesOver;
    hide Replaced;
    hide FieldsUpTo;
    hide Update;
    hide Get;
  }

  lemma RulesForLen(rules: seq<Rule>, ps: seq<Member>)
    requires RulesFor(rules, ps)
    ensures |rules| == |ps|
  {
    hide Text;
  }

  lemma AllowedByDefault(f: Fields)
    requires !Get(f, KAdditionalProperties).Sub?
    ensures AddRuleOf(Get(f, KAdditionalProperties)).Allowed?
  {
    hide Get;
  }

  /** The shared instruction demands what the three members demand. */
  lemma PropsAgree(env: Env, s: Tree, d: Tree, f: Fields, p: nat, q: nat, a: nat)
    requires s.Obj? && f == FieldsUpTo(env, s.members, |s.members|)
    requires Effective(env, s.members, KProperties, p) && Effective(env, s.members, KPatternProperties, q)
    requires Effective(env, s.members, KAdditionalProperties, a)
    ensures AllHold(env, InstrOf(f, KProperties), d) <==> PropsAssert(env, s, p, q, a, d)
  {
    hide *;
    var ms := s.members;
    var add, rs, qs := AddRuleOf(Get(f, KAdditionalProperties)), RulesIn(Get(f, KProperties)), RulesIn(Get(f, KPatternProperties));
    EffectiveKw(env, ms, KProperties, p);
    EffectiveKw(env, ms, KPatternProperties, q);
    EffectiveKw(env, ms, KAdditionalProperties, a);
    PropsInstr(f);
    PropsInstrHolds(env, CountIn(Get(f, KProperties)), CountIn(Get(f, KPatternProperties)), add, rs, qs, d);
    if d.Obj? {
      HoldsAll(env, ms, f, p, q, a, d);
      PropsAssertObject(env, s, p, q, a, d);
    } else {
      PropsAssertOther(env, s, p, q, a, d);
    }
    if HasProps(f) {
      AllHoldOne(env, PropsI(CountIn(Get(f, KProperties)), CountIn(Get(f, KPatternProperties)), add, rs, qs), d);
    } else {
      AllHoldOne(env, UniqueI, d);
      PropsNames();
      SlotRulesFor(env, ms, KProperties, p);
      SlotRulesFor(env, ms, KPatternProperties, q);
      RulesForLen(rs, Under(ms, p));
      RulesForLen(qs, Under(ms, q));
      AllowedByDefault(f);
      NoRulesHold(env, add, rs, qs, d);
    }
  }

  // ---------------------------------------------------------------- every keyword

  predicate IsPropertyKw(k: Kw) { k == KProperties || k == KPatternProperties || k == KAdditionalProperties }

  predicate IsSilentKw(k: Kw) { k == KThen || k == KElse || k == KUnknown }

  lemma Classes(k: Kw)
    ensures IsPropertyKw(k) || IsSilentKw(k) || Rank(k) < 24
    ensures Rank(k) < 24 ==> IsPlainKw(k) || IsOneKw(k) || IsManyKw(k) || k == KRequired || k == KIf
    ensures Rank(k) < 24 ==> k != KUnknown && !IsPropertyKw(k)
  {
  }

  lemma RankedEarly(k: Kw)
    requires Rank(k) < 14
    ensures k in EmitFirst()
  {
    FirstFour();
    SecondFive();
    NextFive();
    hide EmitFirst;
    assert EmitFirst()[Rank(k)] == k;
  }

  lemma RankedLate(k: Kw)
    requires 14 <= Rank(k) < 24
    ensures k in EmitFirst()
  {
    LastTen();
    hide EmitFirst;
    assert EmitFirst()[Rank(k)] == k;
  }

  lemma InOrder(k: Kw)
    ensures k in EmitOrder() <==> Rank(k) < 24 || k == KProperties
  {
    hide *;
    OrderSplit();
    if Rank(k) < 14 {
      RankedEarly(k);
    } else if Rank(k) < 24 {
      RankedLate(k);
    }
    if k in EmitFirst() {
      FirstKws(k);
    }
  }

  lemma NormalAgrees(env: Env, s: Tree, d: Tree, i: nat, f: Fields, k: Kw)
    requires s.Obj? && f == FieldsUpTo(env, s.members, |s.members|) && i < |s.members| && k == KwOf(s.members[i])
    requires Effective(env, s.members, k, i) && ExactUpTo(s.members, |s.members|) && Rank(k) < 24
    ensures AllHold(env, InstrOf(f, k), d) <==> Asserts(env, s, i, d)
  {
    hide *;
    Classes(k);
    AgreesIs(env, s, d, f, k, i);
    if IsPlainKw(k) {
      PlainAgrees(env, s, d, i, f, k);
    } else if IsOneKw(k) {
      OneAgrees(env, s, d, i, f, k);
    } else if IsManyKw(k) {
      ManyAgrees(env, s, d, i, f, k);
    } else if k == KRequired {
      RequiredAgrees(env, s, d, i, f);
    } else {
      IfAgrees(env, s, d, i, f);
    }
  }

  lemma AbsentHolds(env: Env, s: Tree, d: Tree, f: Fields, k: Kw)
    requires s.Obj? && f == FieldsUpTo(env, s.members, |s.members|) && Effective(env, s.members, k, |s.members|) && Rank(k) < 24
    ensures AllHold(env, InstrOf(f, k), d)
  {
    hide *;
    Classes(k);
    AllHoldOne(env, UniqueI, d);
    EffectiveMeans(env, s.members, k, |s.members|);
    if k == KIf {
      IfInstr(f);
    } else {
      NotProps(k);
      InstrCases(f, k, Get(f, k));
    }
  }

  lemma NotProps(k: Kw)
    requires !IsPropertyKw(k)
    ensures k != KProperties
  {
  }

  /** If the node accepts, each keyword's instruction holds. */
  lemma AcceptedHolds(env: Env, s: Tree, d: Tree, f: Fields, k: Kw)
    requires IsObject(s) && s.Obj? && ExactUpTo(s.members, |s.members|) && f == FieldsUpTo(env, s.members, |s.members|)
    requires EachAsserts(env, s, d)
    requires k in EmitOrder()
    ensures AllHold(env, InstrOf(f, k), d)
  {
    hide *;
    InOrder(k);
    PropertyKws();
    if k == KProperties {
      var p := FindMember(env, s.members, KProperties);
      var q := FindMember(env, s.members, KPatternProperties);
      var a := FindMember(env, s.members, KAdditionalProperties);
      PropsAgree(env, s, d, f, p, q, a);
      PropsAssertIs(env, s, p, q, a, d);
      EffectiveKw(env, s.members, KProperties, p);
      EffectiveKw(env, s.members, KPatternProperties, q);
      EffectiveKw(env, s.members, KAdditionalProperties, a);
      EachIs(env, s, d, p);
      EachIs(env, s, d, q);
      EachIs(env, s, d, a);
    } else {
      Classes(k);
      var i := FindMember(env, s.members, k);
      EffectiveMeans(env, s.members, k, i);
      if i < |s.members| {
        EachIs(env, s, d, i);
        NormalAgrees(env, s, d, i, f, k);
      } else {
        AbsentHolds(env, s, d, f, k);
      }
    }
  }

  lemma PropertyKws()
    ensures IsPropertyKw(KProperties) && IsPropertyKw(KPatternProperties) && IsPropertyKw(KAdditionalProperties)
  {
  }

  lemma PropsAssertIs(env: Env, s: Tree, p: nat, q: nat, a: nat, d: Tree)
    requires s.Obj?
    ensures PropsAssert(env, s, p, q, a, d) <==>
            (p < |s.members| ==> Asserts(env, s, p, d)) && (q < |s.members| ==> Asserts(env, s, q, d)) && (a < |s.members| ==> Asserts(env, s, a, d))
  {
    hide Asserts;
    hide Replaced;
  }

  /** If every instruction holds, each member's demand is met. */
  lemma HeldAsserts(env: Env, s: Tree, d: Tree, f: Fields, i: nat)
    requires IsObject(s) && s.Obj? && ExactUpTo(s.members, |s.members|) && f == FieldsUpTo(env, s.members, |s.members|)
    requires forall k :: k in EmitOrder() ==> AllHold(env, InstrOf(f, k), d)
    requires i < |s.members| && !Replaced(s.members, i)
    ensures Asserts(env, s, i, d)
  {
    hide *;
    var k := KwOf(s.members[i]);
    Classes(k);
    InOrder(k);
    if !TakesOver(k, s.members[i].val) {
      IdleAsserts(env, s, i, d);
    } else if Rank(k) < 24 {
      var j := FindMember(env, s.members, k);
      EffectiveIs(env, s.members, k, j, i);
      NormalAgrees(env, s, d, i, f, k);
    } else if IsPropertyKw(k) {
      InOrder(KProperties);
      var p := FindMember(env, s.members, KProperties);
      var q := FindMember(env, s.members, KPatternProperties);
      var a := FindMember(env, s.members, KAdditionalProperties);
      PropsAgree(env, s, d, f, p, q, a);
      PropsAssertIs(env, s, p, q, a, d);
      WhichProperty(k);
      if k == KProperties {
        EffectiveIs(env, s.members, k, p, i);
      } else if k == KPatternProperties {
        EffectiveIs(env, s.members, k, q, i);
      } else {
        EffectiveIs(env, s.members, k, a, i);
      }
    } else {
      Silent(k);
      AssertsNothing(env, s, i, d);
    }
  }

  /** A member that does not take over demands nothing. */
  lemma IdleAsserts(env: Env, s: Tree, i: nat, d: Tree)
    requires s.Obj? && i < |s.members| && !TakesOver(KwOf(s.members[i]), s.members[i].val)
    ensures Asserts(env, s, i, d)
  {
    hide *;
    IdleCases(KwOf(s.members[i]), s.members[i].val);
    var k := KwOf(s.members[i]);
    if k in {KThen, KElse, KUnknown} {
      AssertsNothing(env, s, i, d);
    } else if k == KIf {
      AssertsIf(env, s, i, d);
    } else if k == KProperties {
      AssertsProperties(env, s, i, d);
    } else if k == KPatternProperties {
      AssertsPatterns(env, s, i, d);
    } else {
      AssertsNested(env, s, i, d);
    }
  }

  lemma IdleCases(k: Kw, v: Tree)
    requires !TakesOver(k, v)
    ensures k in {KThen, KElse, KUnknown, KIf, KProperties, KPatternProperties, KItems, KContains, KNot, KPropertyNames, KAllOf, KAnyOf, KOneOf, KRequired}
    ensures k in {KIf, KItems, KContains, KNot, KPropertyNames} ==> !ValidSub(v)
    ensures k in {KAllOf, KAnyOf, KOneOf, KRequired} ==> !IsArray(v)
    ensures k in {KProperties, KPatternProperties} ==> !IsObject(v)
  {
    hide ValidSub;
    hide IsArray;
    hide IsObject;
  }

  lemma WhichProperty(k: Kw)
    requires IsPropertyKw(k)
    ensures k == KProperties || k == KPatternProperties || k == KAdditionalProperties
  {
  }

  lemma Silent(k: Kw)
    requires IsSilentKw(k)
    ensures k in {KThen, KElse, KUnknown}
  {
  }

  ghost predicate EachAsserts(env: Env, s: Tree, d: Tree)
    requires s.Obj?
  {
    forall i :: 0 <= i < |s.members| && !Replaced(s.members, i) ==> Asserts(env, s, i, d)
  }

  lemma AcceptsEach(env: Env, s: Tree, d: Tree, i: nat)
    requires IsObject(s) && Accepts(env, s, d) && i < |s.members| && !Replaced(s.members, i)
    ensures Asserts(env, s, i, d)
  {
    hide Asserts;
    hide Replaced;
  }

  lemma EachAccepts(env: Env, s: Tree, d: Tree)
    requires IsObject(s) && EachAsserts(env, s, d)
    ensures Accepts(env, s, d)
  {
    hide Asserts;
    hide Replaced;
  }

  lemma AcceptsObject(env: Env, s: Tree, d: Tree)
    requires IsObject(s)
    ensures s.Obj? && (Accepts(env, s, d) <==> EachAsserts(env, s, d))
  {
    hide Asserts;
    hide Accepts;
    hide Replaced;
    if Accepts(env, s, d) {
      forall i | 0 <= i < |s.members| && !Replaced(s.members, i) ensures Asserts(env, s, i, d) {
        AcceptsEach(env, s, d, i);
      }
    } else if EachAsserts(env, s, d) {
      EachAccepts(env, s, d);
    }
  }

  lemma EachIs(env: Env, s: Tree, d: Tree, i: nat)
    requires s.Obj? && EachAsserts(env, s, d)
    ensures i < |s.members| && !Replaced(s.members, i) ==> Asserts(env, s, i, d)
  {
    hide Asserts;
    hide Replaced;
  }

  lemma AcceptsOther(env: Env, s: Tree, d: Tree)
    requires !IsObject(s)
    ensures Accepts(env, s, d) <==> !IsFalse(s)
  {
    hide Asserts;
    hide Replaced;
  }

  lemma AllHeld(env: Env, s: Tree, d: Tree, f: Fields)
    requires IsObject(s) && s.Obj? && ExactUpTo(s.members, |s.members|) && f == FieldsUpTo(env, s.members, |s.members|)
    requires forall k :: k in EmitOrder() ==> AllHold(env, InstrOf(f, k), d)
    ensures EachAsserts(env, s, d)
  {
    hide *;
    forall i | 0 <= i < |s.members| && !Replaced(s.members, i) ensures Asserts(env, s, i, d) {
      HeldAsserts(env, s, d, f, i);
    }
    EachAre(env, s, d);
  }

  lemma EachAre(env: Env, s: Tree, d: Tree)
    requires s.Obj? && forall i :: 0 <= i < |s.members| && !Replaced(s.members, i) ==> Asserts(env, s, i, d)
    ensures EachAsserts(env, s, d)
  {
    hide Asserts;
    hide Replaced;
  }

  /** The heart of compiler correctness: for a schema node on which the two passes agree, its
      instructions together mean what the node means. */
  lemma NodeMeaning(env: Env, s: Tree, d: Tree)
    requires ExactNode(s)
    ensures Accepts(env, s, d) <==> !IsFalse(s) && AllHold(env, NodeInstrs(env, s), d)
  {
    hide *;
    NodeForms(env, [], 0, s, 0);
    if IsObject(s) {
      var f := FieldsUpTo(env, s.members, |s.members|);
      ExactObject(s);
      AcceptsObject(env, s, d);
      AllHoldKeywords(env, f, EmitOrder(), d);
      if Accepts(env, s, d) {
        forall k | k in EmitOrder() ensures AllHold(env, InstrOf(f, k), d) {
          AcceptedHolds(env, s, d, f, k);
        }
      }
      if AllHold(env, NodeInstrs(env, s), d) {
        AllHeld(env, s, d, f);
      }
    } else {
      AllHoldOne(env, UniqueI, d);
      AcceptsOther(env, s, d);
    }
  }

  lemma ExactObject(s: Tree)
    requires ExactNode(s) && IsObject(s)
    ensures s.Obj? && ExactUpTo(s.members, |s.members|) && !IsFalse(s)
  {
    hide ExactUpTo;
  }
}
