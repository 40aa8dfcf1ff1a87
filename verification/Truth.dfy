/** The instructions of an exact schema node hold of a value exactly when the node accepts it:
    the slot of each keyword holds what its last effective member says. */
module Truth {
  import opened Bytes
  import opened Ast
  import opened Unescape
  import opened Keywords
  import opened Semantics
  import opened Layout
  import opened Code
  import opened Sizes
  import opened Agreement
  import opened PoolSizes
  import opened Cover
  import opened Emission
  import opened Meaning

  // ---------------------------------------------------------------- the member that counts

  /** The member of keyword `k` that counts, or the number of members if there is none: all
      others are replaced or say nothing, and the slot holds what this one says. */
  ghost predicate Effective(env: Env, ms: seq<Member>, k: Kw, i: nat) {
    && i <= |ms|
    && (forall a :: 0 <= a < |ms| && a != i && KwOf(ms[a]) == k ==> Replaced(ms, a) || !TakesOver(k, ms[a].val))
    && (i < |ms| ==> KwOf(ms[i]) == k && TakesOver(k, ms[i].val) && !Replaced(ms, i))
    && Get(FieldsUpTo(env, ms, |ms|), k)
       == if i < |ms| then Update(env, Empty, k, PosOf(ms, i) + 1, ms[i].val) else Empty
  }

  /** Members that do not take over leave the slot as it is. */
  lemma {:induction false} IdleKeep(env: Env, ms: seq<Member>, k: Kw, i: nat, n: nat)
    requires i <= n <= |ms| && forall a :: i <= a < n && KwOf(ms[a]) == k ==> !TakesOver(k, ms[a].val)
    ensures Get(FieldsUpTo(env, ms, n), k) == Get(FieldsUpTo(env, ms, i), k)
  {
    hide *;
    if n > i {
      IdleKeep(env, ms, k, i, n - 1);
      var j := KwOf(ms[n - 1]);
      var f := FieldsUpTo(env, ms, n - 1);
      var now := Update(env, Get(f, j), j, PosOf(ms, n - 1) + 1, ms[n - 1].val);
      FieldsStep(env, ms, n - 1);
      GetUpdated(f, j, now, k);
      if j == k {
        NotUpdated(env, Get(f, k), k, PosOf(ms, n - 1) + 1, ms[n - 1].val);
      }
    }
  }

  /** Nothing that the next member would add to. */
  predicate Blank(s: Slot) { TypesIn(s) == {} && CountIn(s) == 0 }

  lemma FreeStaysBlank(env: Env, prev: Slot, k: Kw, rel: nat, v: Tree)
    requires Blank(prev) && Cost(k, v) == 0
    ensures Blank(Update(env, prev, k, rel, v))
  {
    UnknownIs();
    KindsApart(k);
    SubApart(k);
    ManyApart(k);
    PropsApart(k);
    PlainApart(k);
    hide ToDouble;
    hide ToInt32;
    hide TypeSet;
    hide ValidSub;
    hide IsTrue;
    hide IsStr;
    hide IsNumKw;
    hide IsIntKw;
    hide IsStrKw;
    hide IsSubKw;
    hide IsBranchKw;
    hide IsManyKw;
    hide IsPropsKw;
  }

  lemma BlankForgotten(env: Env, prev: Slot, k: Kw, rel: nat, v: Tree)
    requires Blank(prev) && TakesOver(k, v)
    ensures Update(env, prev, k, rel, v) == Update(env, Empty, k, rel, v)
  {
    hide ToDouble;
    hide ToInt32;
    hide TypeSet;
  }

  lemma EmptyIsBlank()
    ensures Blank(Empty)
  {
  }

  /** Before a member that takes over, only members that cost nothing were seen. */
  lemma {:induction false} BlankBefore(env: Env, ms: seq<Member>, k: Kw, i: nat)
    requires i <= |ms| && forall a :: 0 <= a < i && KwOf(ms[a]) == k ==> Cost(k, ms[a].val) == 0
    ensures Blank(Get(FieldsUpTo(env, ms, i), k))
  {
    hide *;
    NoFields(env, ms, k);
    EmptyIsBlank();
    if i > 0 {
      BlankBefore(env, ms, k, i - 1);
      var j := KwOf(ms[i - 1]);
      var f := FieldsUpTo(env, ms, i - 1);
      var rel := PosOf(ms, i - 1) + 1;
      FieldsStep(env, ms, i - 1);
      GetUpdated(f, j, Update(env, Get(f, j), j, rel, ms[i - 1].val), k);
      if j == k {
        FreeStaysBlank(env, Get(f, k), k, rel, ms[i - 1].val);
      }
    }
  }

  /** In an exact schema what comes before a member that takes over costs nothing. */
  lemma ClashFree(ms: seq<Member>, k: Kw, i: nat)
    requires ExactUpTo(ms, |ms|) && i < |ms| && KwOf(ms[i]) == k && TakesOver(k, ms[i].val)
    ensures forall a :: 0 <= a < i && KwOf(ms[a]) == k ==> Cost(k, ms[a].val) == 0
  {
    hide KwOf;
    hide Cost;
    hide TakesOver;
    hide EmptyRequired;
    forall a | 0 <= a < i && KwOf(ms[a]) == k ensures Cost(k, ms[a].val) == 0 {
      assert !Clash(ms[a], ms[i]);
    }
  }

  /** The last member of the keyword that takes over, if any. */
  lemma {:induction false} LastTaking(ms: seq<Member>, k: Kw, n: nat) returns (i: nat)
    requires n <= |ms|
    ensures i < n || i == |ms|
    ensures i < n ==> KwOf(ms[i]) == k && TakesOver(k, ms[i].val)
    ensures forall a :: 0 <= a < n && KwOf(ms[a]) == k && TakesOver(k, ms[a].val) ==> i < n && a <= i
  {
    hide KwOf;
    hide TakesOver;
    if n == 0 {
      i := |ms|;
    } else if KwOf(ms[n - 1]) == k && TakesOver(k, ms[n - 1].val) {
      i := n - 1;
    } else {
      i := LastTaking(ms, k, n - 1);
    }
  }

  lemma SlotAfter(env: Env, ms: seq<Member>, k: Kw, i: nat)
    requires ExactUpTo(ms, |ms|) && i < |ms| && KwOf(ms[i]) == k && TakesOver(k, ms[i].val)
    requires forall a :: i < a < |ms| && KwOf(ms[a]) == k ==> !TakesOver(k, ms[a].val)
    ensures Get(FieldsUpTo(env, ms, |ms|), k) == Update(env, Empty, k, PosOf(ms, i) + 1, ms[i].val)
  {
    hide *;
    ClashFree(ms, k, i);
    BlankBefore(env, ms, k, i);
    var f := FieldsUpTo(env, ms, i);
    FieldsStep(env, ms, i);
    GetUpdated(f, k, Update(env, Get(f, k), k, PosOf(ms, i) + 1, ms[i].val), k);
    BlankForgotten(env, Get(f, k), k, PosOf(ms, i) + 1, ms[i].val);
    IdleKeep(env, ms, k, i + 1, |ms|);
  }

  lemma FindMember(env: Env, ms: seq<Member>, k: Kw) returns (i: nat)
    requires ExactUpTo(ms, |ms|)
    ensures Effective(env, ms, k, i)
  {
    hide KwOf;
    hide TakesOver;
    hide FieldsUpTo;
    hide Update;
    hide Get;
    hide ExactUpTo;
    i := LastTaking(ms, k, |ms|);
    if i < |ms| {
      SlotAfter(env, ms, k, i);
    } else {
      NoFields(env, ms, k);
      IdleKeep(env, ms, k, 0, |ms|);
    }
  }

  lemma EffectiveIs(env: Env, ms: seq<Member>, k: Kw, i: nat, j: nat)
    requires Effective(env, ms, k, i) && j < |ms| && KwOf(ms[j]) == k && TakesOver(k, ms[j].val) && !Replaced(ms, j)
    ensures i == j && i < |ms|
  {
    hide KwOf;
    hide TakesOver;
    hide Replaced;
    hide FieldsUpTo;
    hide Update;
    hide Get;
  }

  lemma EffectiveMeans(env: Env, ms: seq<Member>, k: Kw, i: nat)
    requires Effective(env, ms, k, i)
    ensures i <= |ms|
    ensures i < |ms| ==> KwOf(ms[i]) == k && !Replaced(ms, i)
                         && Get(FieldsUpTo(env, ms, |ms|), k) == Update(env, Empty, k, PosOf(ms, i) + 1, ms[i].val)
    ensures i == |ms| ==> Get(FieldsUpTo(env, ms, |ms|), k) == Empty
  {
    hide KwOf;
    hide TakesOver;
    hide Replaced;
    hide FieldsUpTo;
    hide Update;
    hide Get;
  }

  // ---------------------------------------------------------------- what holds

  ghost predicate AllHold(env: Env, ins: seq<Instr>, d: Tree) {
    forall j :: 0 <= j < |ins| ==> InstrHolds(env, ins[j], d)
  }

  lemma AllHoldAppend(env: Env, a: seq<Instr>, b: seq<Instr>, d: Tree)
    ensures AllHold(env, a + b, d) <==> AllHold(env, a, d) && AllHold(env, b, d)
  {
    hide InstrHolds;
    if AllHold(env, a + b, d) {
      forall j | 0 <= j < |a| ensures InstrHolds(env, a[j], d) {
        assert (a + b)[j] == a[j];
      }
      forall j | 0 <= j < |b| ensures InstrHolds(env, b[j], d) {
        assert (a + b)[|a| + j] == b[j];
      }
    }
  }

  lemma AllHoldOne(env: Env, i: Instr, d: Tree)
    ensures AllHold(env, [i], d) == InstrHolds(env, i, d)
    ensures AllHold(env, [], d)
  {
    hide InstrHolds;
    if AllHold(env, [i], d) {
      assert InstrHolds(env, [i][0], d);
    }
  }

  lemma {:induction false} AllHoldKeywords(env: Env, f: Fields, ks: seq<Kw>, d: Tree)
    ensures AllHold(env, InstrsOf(f, ks), d) <==> forall k :: k in ks ==> AllHold(env, InstrOf(f, k), d)
  {
    hide InstrOf;
    hide AllHold;
    if ks == [] {
      AllHoldOne(env, UniqueI, d);
    } else {
      AllHoldKeywords(env, f, ks[1..], d);
      AllHoldAppend(env, InstrOf(f, ks[0]), InstrsOf(f, ks[1..]), d);
      assert forall k :: k in ks <==> k == ks[0] || k in ks[1..];
    }
  }

  // ---------------------------------------------------------------- keyword by keyword

  /** The instruction of `k` demands what its one member demands. */
  ghost predicate KwAgrees(env: Env, s: Tree, d: Tree, f: Fields, k: Kw, i: nat)
    requires s.Obj? && i < |s.members|
  {
    AllHold(env, InstrOf(f, k), d) <==> Asserts(env, s, i, d)
  }

  lemma AssertsPlain(env: Env, s: Tree, i: nat, d: Tree)
    requires s.Obj? && i < |s.members|
    ensures var k, v := KwOf(s.members[i]), s.members[i].val;
            && (IsNumKw(k) ==> Asserts(env, s, i, d) == NumberOk(env, k, ToDouble(env, TokenOf(v)), d))
            && (IsIntKw(k) ==> Asserts(env, s, i, d) == CountOk(k, ToInt32(env, TokenOf(v)), d))
            && (IsStrKw(k) ==> Asserts(env, s, i, d) == StringOk(env, k, Text(TokenOf(v)), d))
            && (k == KType ==> Asserts(env, s, i, d) == HasType(env, TypeSet(v), d))
            && (k == KUniqueItems ==> (Asserts(env, s, i, d) <==> (IsTrue(v) ==> Unique(env, d))))
  {
    hide KwOf;
    hide ToDouble;
    hide ToInt32;
    hide NumberOk;
    hide CountOk;
    hide StringOk;
    hide HasType;
    hide TypeSet;
    hide Unique;
    hide Accepts;
    hide ItemsOk;
    hide ContainsOk;
    hide NamesOk;
    hide AllOk;
    hide AnyOk;
    hide OneOk;
    hide BranchOk;
    hide RequiredOk;
    hide PropertiesOk;
    hide PatternsOk;
    hide AdditionalOk;
    hide ValidSub;
    hide Text;
  }

  lemma AssertsNested(env: Env, s: Tree, i: nat, d: Tree)
    requires s.Obj? && i < |s.members|
    ensures var k, v := KwOf(s.members[i]), s.members[i].val;
            && (k == KItems ==> (Asserts(env, s, i, d) <==> (ValidSub(v) ==> ItemsOk(env, v, d))))
            && (k == KContains ==> (Asserts(env, s, i, d) <==> (ValidSub(v) ==> ContainsOk(env, v, d))))
            && (k == KNot ==> (Asserts(env, s, i, d) <==> (ValidSub(v) ==> !Accepts(env, v, d))))
            && (k == KPropertyNames ==> (Asserts(env, s, i, d) <==> (ValidSub(v) ==> NamesOk(env, v, d))))
            && (k == KAllOf ==> (Asserts(env, s, i, d) <==> (IsArray(v) ==> AllOk(env, v, d))))
            && (k == KAnyOf ==> (Asserts(env, s, i, d) <==> (IsArray(v) ==> AnyOk(env, v, d))))
            && (k == KOneOf ==> (Asserts(env, s, i, d) <==> (IsArray(v) ==> OneOk(env, v, d))))
            && (k == KRequired ==> (Asserts(env, s, i, d) <==> (IsArray(v) ==> RequiredOk(v, d))))
  {
    hide KwOf;
    hide NumberOk;
    hide CountOk;
    hide StringOk;
    hide HasType;
    hide TypeSet;
    hide Unique;
    hide Accepts;
    hide ItemsOk;
    hide ContainsOk;
    hide NamesOk;
    hide AllOk;
    hide AnyOk;
    hide OneOk;
    hide BranchOk;
    hide RequiredOk;
    hide PropertiesOk;
    hide PatternsOk;
    hide AdditionalOk;
    hide ValidSub;
    hide Text;
  }

  lemma AssertsIf(env: Env, s: Tree, i: nat, d: Tree)
    requires s.Obj? && i < |s.members| && KwOf(s.members[i]) == KIf
    ensures Asserts(env, s, i, d) <==>
            (ValidSub(s.members[i].val) ==>
               BranchOk(env, s, if Accepts(env, s.members[i].val, d) then KThen else KElse, d))
  {
    hide KwOf;
    hide NumberOk;
    hide CountOk;
    hide StringOk;
    hide HasType;
    hide TypeSet;
    hide Unique;
    hide Accepts;
    hide ItemsOk;
    hide ContainsOk;
    hide NamesOk;
    hide AllOk;
    hide AnyOk;
    hide OneOk;
    hide BranchOk;
    hide RequiredOk;
    hide PropertiesOk;
    hide PatternsOk;
    hide AdditionalOk;
    hide ValidSub;
    hide Text;
  }

  lemma AssertsProperties(env: Env, s: Tree, i: nat, d: Tree)
    requires s.Obj? && i < |s.members| && KwOf(s.members[i]) == KProperties
    ensures Asserts(env, s, i, d) <==> (IsObject(s.members[i].val) ==> PropertiesOk(env, s.members[i].val, d))
  {
    hide KwOf;
    hide NumberOk;
    hide CountOk;
    hide StringOk;
    hide HasType;
    hide TypeSet;
    hide Unique;
    hide Accepts;
    hide ItemsOk;
    hide ContainsOk;
    hide NamesOk;
    hide AllOk;
    hide AnyOk;
    hide OneOk;
    hide BranchOk;
    hide RequiredOk;
    hide PropertiesOk;
    hide PatternsOk;
    hide AdditionalOk;
    hide ValidSub;
    hide Text;
  }

  lemma AssertsPatterns(env: Env, s: Tree, i: nat, d: Tree)
    requires s.Obj? && i < |s.members| && KwOf(s.members[i]) == KPatternProperties
    ensures Asserts(env, s, i, d) <==> (IsObject(s.members[i].val) ==> PatternsOk(env, s.members[i].val, d))
  {
    hide KwOf;
    hide NumberOk;
    hide CountOk;
    hide StringOk;
    hide HasType;
    hide TypeSet;
    hide Unique;
    hide Accepts;
    hide ItemsOk;
    hide ContainsOk;
    hide NamesOk;
    hide AllOk;
    hide AnyOk;
    hide OneOk;
    hide BranchOk;
    hide RequiredOk;
    hide PropertiesOk;
    hide PatternsOk;
    hide AdditionalOk;
    hide ValidSub;
    hide Text;
  }

  lemma AssertsAdditional(env: Env, s: Tree, i: nat, d: Tree)
    requires s.Obj? && i < |s.members| && KwOf(s.members[i]) == KAdditionalProperties
    ensures Asserts(env, s, i, d) <==>
            (ValidSub(s.members[i].val) ==> AdditionalOk(env, s.members, s.members[i].val, d))
  {
    hide KwOf;
    hide NumberOk;
    hide CountOk;
    hide StringOk;
    hide HasType;
    hide TypeSet;
    hide Unique;
    hide Accepts;
    hide ItemsOk;
    hide ContainsOk;
    hide NamesOk;
    hide AllOk;
    hide AnyOk;
    hide OneOk;
    hide BranchOk;
    hide RequiredOk;
    hide PropertiesOk;
    hide PatternsOk;
    hide AdditionalOk;
    hide ValidSub;
    hide Text;
  }

  lemma AssertsNothing(env: Env, s: Tree, i: nat, d: Tree)
    requires s.Obj? && i < |s.members| && KwOf(s.members[i]) in {KThen, KElse, KUnknown}
    ensures Asserts(env, s, i, d)
  {
    hide KwOf;
    hide NumberOk;
    hide CountOk;
    hide StringOk;
    hide HasType;
    hide TypeSet;
    hide Unique;
    hide Accepts;
    hide ItemsOk;
    hide ContainsOk;
    hide NamesOk;
    hide AllOk;
    hide AnyOk;
    hide OneOk;
    hide BranchOk;
    hide RequiredOk;
    hide PropertiesOk;
    hide PatternsOk;
    hide AdditionalOk;
    hide ValidSub;
    hide Text;
  }

  lemma PlainUpdates(env: Env, k: Kw, rel: nat, v: Tree)
    ensures IsNumKw(k) ==> Update(env, Empty, k, rel, v) == Num(ToDouble(env, TokenOf(v)))
    ensures IsIntKw(k) ==> Update(env, Empty, k, rel, v) == Int(ToInt32(env, TokenOf(v)))
    ensures IsStrKw(k) ==> Update(env, Empty, k, rel, v) == Str(TokenOf(v))
    ensures k == KType ==> Update(env, Empty, k, rel, v) == Types(TypeSet(v))
    ensures k == KUniqueItems ==> Update(env, Empty, k, rel, v) == Flag(IsTrue(v))
  {
    hide ToDouble;
    hide ToInt32;
    hide TypeSet;
    hide ValidSub;
    hide IsTrue;
    hide IsStr;
    hide IsArray;
    hide IsObject;
    KindsApart(k);
    hide IsNumKw;
    hide IsIntKw;
    hide IsStrKw;
    assert {} + TypeSet(v) == TypeSet(v);
  }

  lemma SubUpdates(env: Env, k: Kw, rel: nat, v: Tree)
    requires IsSubKw(k) || IsBranchKw(k)
    ensures Update(env, Empty, k, rel, v) == if ValidSub(v) then Sub(Ref(rel, v)) else Empty
  {
    hide ToDouble;
    hide ToInt32;
    hide TypeSet;
    hide ValidSub;
    hide IsObject;
    hide IsArray;
    hide IsTrue;
  }

  lemma ManyUpdates(env: Env, k: Kw, rel: nat, v: Tree)
    requires IsManyKw(k) || k == KRequired
    ensures IsArray(v) ==> v.Arr? && Update(env, Empty, k, rel, v) == Many(Ref(rel, v), |v.items|)
    ensures !IsArray(v) ==> Update(env, Empty, k, rel, v) == Empty
  {
    hide ToDouble;
    hide ToInt32;
    hide TypeSet;
    hide ValidSub;
    hide IsObject;
    hide IsTrue;
  }

  lemma PropsUpdates(env: Env, k: Kw, rel: nat, v: Tree)
    requires IsPropsKw(k)
    ensures IsObject(v) ==> v.Obj? && Update(env, Empty, k, rel, v) == Many(Ref(rel, v), |v.members|)
    ensures !IsObject(v) ==> Update(env, Empty, k, rel, v) == Empty
  {
    hide ToDouble;
    hide ToInt32;
    hide TypeSet;
    hide ValidSub;
    hide IsArray;
    hide IsTrue;
  }

  lemma AdditionalUpdates(env: Env, rel: nat, v: Tree)
    ensures Update(env, Empty, KAdditionalProperties, rel, v) == Sub(Ref(rel, v))
  {
    hide ToDouble;
    hide ToInt32;
    hide TypeSet;
    hide ValidSub;
    hide IsArray;
    hide IsObject;
    hide IsTrue;
  }

  predicate IsPlainKw(k: Kw) {
    IsNumKw(k) || IsIntKw(k) || IsStrKw(k) || k == KType || k == KUniqueItems
  }

  lemma PlainKws(k: Kw)
    requires IsPlainKw(k)
    ensures k != KIf && k != KProperties && (IsNumKw(k) || IsIntKw(k) || IsStrKw(k) || k == KType || k == KUniqueItems)
  {
  }

  lemma PlainAgrees(env: Env, s: Tree, d: Tree, i: nat, f: Fields, k: Kw)
    requires s.Obj? && f == FieldsUpTo(env, s.members, |s.members|) && i < |s.members| && k == KwOf(s.members[i])
    requires Effective(env, s.members, k, i) && IsPlainKw(k)
    ensures KwAgrees(env, s, d, f, k, i)
  {
    hide *;
    var v := s.members[i].val;
    var slot := Get(f, k);
    PlainKws(k);
    EffectiveMeans(env, s.members, k, i);
    PlainUpdates(env, k, PosOf(s.members, i) + 1, v);
    InstrCases(f, k, slot);
    AssertsPlain(env, s, i, d);
    AgreesIs(env, s, d, f, k, i);
    AllHoldOne(env, UniqueI, d);
    if InstrOf(f, k) != [] {
      var ins := InstrOf(f, k)[0];
      assert InstrOf(f, k) == [ins];
      AllHoldOne(env, ins, d);
      PlainHolds(env, ins, d);
    }
  }

  lemma AgreesIs(env: Env, s: Tree, d: Tree, f: Fields, k: Kw, i: nat)
    requires s.Obj? && i < |s.members|
    ensures KwAgrees(env, s, d, f, k, i) <==> (AllHold(env, InstrOf(f, k), d) <==> Asserts(env, s, i, d))
  {
    hide AllHold;
    hide Asserts;
    hide InstrOf;
  }

  lemma PlainHolds(env: Env, ins: Instr, d: Tree)
    ensures ins.TypeI? ==> InstrHolds(env, ins, d) == HasType(env, ins.types, d)
    ensures ins.NumI? ==> InstrHolds(env, ins, d) == NumberOk(env, ins.k, ins.bits, d)
    ensures ins.CountI? ==> InstrHolds(env, ins, d) == CountOk(ins.k, ins.n, d)
    ensures ins.UniqueI? ==> InstrHolds(env, ins, d) == Unique(env, d)
    ensures ins.StrI? ==> InstrHolds(env, ins, d) == StringOk(env, ins.k, ins.s, d)
    ensures ins.SubI? ==> InstrHolds(env, ins, d) == SubHolds(env, ins.k, ins.ref.sub, d)
    ensures ins.ManyI? ==> InstrHolds(env, ins, d) == ManyHolds(env, ins.k, ins.refs, d)
  {
    hide HasType;
    hide NumberOk;
    hide CountOk;
    hide Unique;
    hide StringOk;
    hide SubHolds;
    hide ManyHolds;
    hide Accepts;
    hide HasKey;
    hide PropsHold;
  }

  // ---------------------------------------------------------------- one subschema

  predicate IsOneKw(k: Kw) { k == KItems || k == KContains || k == KNot || k == KPropertyNames }

  lemma OneKws(k: Kw)
    ensures IsOneKw(k) ==> IsSubKw(k) && k != KIf && k != KProperties
    ensures IsOneKw(k) <==> k == KItems || k == KContains || k == KNot || k == KPropertyNames
  {
  }

  lemma SubForms(env: Env, v: Tree, d: Tree)
    ensures SubHolds(env, KItems, v, d) == ItemsOk(env, v, d)
    ensures SubHolds(env, KContains, v, d) == ContainsOk(env, v, d)
    ensures SubHolds(env, KNot, v, d) == !Accepts(env, v, d)
    ensures SubHolds(env, KPropertyNames, v, d) == NamesOk(env, v, d)
  {
    hide ItemsOk;
    hide ContainsOk;
    hide Accepts;
    hide NamesOk;
  }

  lemma OneAgrees(env: Env, s: Tree, d: Tree, i: nat, f: Fields, k: Kw)
    requires s.Obj? && f == FieldsUpTo(env, s.members, |s.members|) && i < |s.members| && k == KwOf(s.members[i])
    requires Effective(env, s.members, k, i) && IsOneKw(k)
    ensures KwAgrees(env, s, d, f, k, i)
  {
    hide *;
    var v := s.members[i].val;
    OneKws(k);
    EffectiveMeans(env, s.members, k, i);
    SubUpdates(env, k, PosOf(s.members, i) + 1, v);
    InstrCases(f, k, Get(f, k));
    AssertsNested(env, s, i, d);
    AgreesIs(env, s, d, f, k, i);
    SubForms(env, v, d);
    if ValidSub(v) {
      var ins := SubI(k, Ref(PosOf(s.members, i) + 1, v));
      AllHoldOne(env, ins, d);
      PlainHolds(env, ins, d);
    } else {
      AllHoldOne(env, UniqueI, d);
    }
  }

  // ---------------------------------------------------------------- allOf, anyOf, oneOf, required

  lemma {:induction false} RefsOfEntries(pos: nat, items: seq<Tree>, j: nat)
    requires j < |items|
    ensures EntryRefs(pos, items)[j].sub == items[j]
  {
    hide EntryRefs;
    EntryRefAt(pos, items, j);
  }

  lemma EntryRefSubs(pos: nat, items: seq<Tree>)
    ensures forall j :: 0 <= j < |items| ==> EntryRefs(pos, items)[j].sub == items[j]
  {
    hide *;
    forall j | 0 <= j < |items| ensures EntryRefs(pos, items)[j].sub == items[j] {
      RefsOfEntries(pos, items, j);
    }
  }

  lemma EntryIs(env: Env, e: Tree, d: Tree)
    ensures EntryOk(env, e, d) == Accepts(env, e, d)
  {
    hide Accepts;
    hide ValidSub;
    if !ValidSub(e) {
      InvalidAccepts(env, e, d);
    }
  }

  lemma AllAnyAgree(env: Env, v: Tree, d: Tree, refs: seq<Ref>)
    requires v.Arr? && |refs| == |v.items| && forall j :: 0 <= j < |refs| ==> refs[j].sub == v.items[j]
    ensures AllOk(env, v, d) == ManyHolds(env, KAllOf, refs, d)
    ensures AnyOk(env, v, d) == ManyHolds(env, KAnyOf, refs, d)
  {
    hide Accepts;
    hide EntryOk;
    forall j | 0 <= j < |v.items| ensures EntryOk(env, v.items[j], d) == Accepts(env, refs[j].sub, d) {
      EntryIs(env, v.items[j], d);
    }
  }

  /** Exactly one of the first `n` references accepts. */
  ghost predicate JustOne(env: Env, refs: seq<Ref>, d: Tree, j: nat) {
    && j < |refs| && Accepts(env, refs[j].sub, d)
    && forall l :: 0 <= l < |refs| && l != j ==> !Accepts(env, refs[l].sub, d)
  }

  lemma {:induction false} NonePassing(env: Env, refs: seq<Ref>, d: Tree)
    ensures Passing(env, refs, d) == 0 <==> forall l :: 0 <= l < |refs| ==> !Accepts(env, refs[l].sub, d)
  {
    hide Accepts;
    if refs != [] {
      NonePassing(env, refs[..|refs| - 1], d);
    }
  }

  lemma {:induction false} OnePassing(env: Env, refs: seq<Ref>, d: Tree)
    ensures Passing(env, refs, d) == 1 <==> exists j: nat :: JustOne(env, refs, d, j)
  {
    hide Accepts;
    if refs == [] {
    } else {
      var last := |refs| - 1;
      OnePassing(env, refs[..last], d);
      NonePassing(env, refs[..last], d);
      if Accepts(env, refs[last].sub, d) {
        if Passing(env, refs[..last], d) == 0 {
          assert JustOne(env, refs, d, last);
        }
      } else if j: nat :| JustOne(env, refs[..last], d, j) {
        assert JustOne(env, refs, d, j);
      }
      if j: nat :| JustOne(env, refs, d, j) {
        if j < last {
          assert JustOne(env, refs[..last], d, j);
        }
      }
    }
  }

  ghost predicate JustEntry(env: Env, items: seq<Tree>, d: Tree, j: nat) {
    && j < |items| && EntryOk(env, items[j], d)
    && forall l :: 0 <= l < |items| && l != j ==> !EntryOk(env, items[l], d)
  }

  lemma OneOkMeans(env: Env, v: Tree, d: Tree)
    requires v.Arr?
    ensures OneOk(env, v, d) <==> exists j: nat :: JustEntry(env, v.items, d, j)
  {
    hide EntryOk;
    if OneOk(env, v, d) {
      var j :| 0 <= j < |v.items| && EntryOk(env, v.items[j], d)
        && forall l :: 0 <= l < |v.items| && l != j ==> !EntryOk(env, v.items[l], d);
      assert JustEntry(env, v.items, d, j);
    }
  }

  lemma SameEntries(env: Env, items: seq<Tree>, d: Tree, refs: seq<Ref>, j: nat)
    requires |refs| == |items| && forall l :: 0 <= l < |refs| ==> EntryOk(env, items[l], d) == Accepts(env, refs[l].sub, d)
    ensures JustEntry(env, items, d, j) <==> JustOne(env, refs, d, j)
  {
    hide EntryOk;
    hide Accepts;
  }

  lemma OneOkIs(env: Env, v: Tree, d: Tree, refs: seq<Ref>)
    requires v.Arr? && |refs| == |v.items| && forall j :: 0 <= j < |refs| ==> EntryOk(env, v.items[j], d) == Accepts(env, refs[j].sub, d)
    ensures OneOk(env, v, d) <==> exists j: nat :: JustOne(env, refs, d, j)
  {
    hide *;
    OneOkMeans(env, v, d);
    forall j: nat ensures JustEntry(env, v.items, d, j) <==> JustOne(env, refs, d, j) {
      SameEntries(env, v.items, d, refs, j);
    }
  }

  lemma OneOfIs(env: Env, refs: seq<Ref>, d: Tree)
    ensures ManyHolds(env, KOneOf, refs, d) == (Passing(env, refs, d) == 1)
  {
    hide Accepts;
    hide Passing;
  }

  lemma OneOfAgrees(env: Env, v: Tree, d: Tree, refs: seq<Ref>)
    requires v.Arr? && |refs| == |v.items| && forall j :: 0 <= j < |refs| ==> refs[j].sub == v.items[j]
    ensures OneOk(env, v, d) == ManyHolds(env, KOneOf, refs, d)
  {
    hide *;
    forall j | 0 <= j < |v.items| ensures EntryOk(env, v.items[j], d) == Accepts(env, refs[j].sub, d) {
      EntryIs(env, v.items[j], d);
    }
    OneOkIs(env, v, d, refs);
    OnePassing(env, refs, d);
    OneOfIs(env, refs, d);
  }

  lemma ManyKws(k: Kw)
    ensures IsManyKw(k) <==> k == KAllOf || k == KAnyOf || k == KOneOf
    ensures IsManyKw(k) ==> k != KRequired && k != KIf && k != KProperties
  {
  }

  lemma ArrayIs(v: Tree)
    ensures IsArray(v) ==> v.Arr?
    ensures IsObject(v) ==> v.Obj?
  {
  }

  lemma ManyAsserts(env: Env, s: Tree, i: nat, d: Tree, k: Kw, v: Tree, refs: seq<Ref>)
    requires s.Obj? && i < |s.members| && k == KwOf(s.members[i]) && v == s.members[i].val && IsManyKw(k)
    requires IsArray(v) && v.Arr? && |refs| == |v.items| && forall j :: 0 <= j < |refs| ==> refs[j].sub == v.items[j]
    ensures Asserts(env, s, i, d) == ManyHolds(env, k, refs, d)
  {
    hide *;
    ManyKws(k);
    AssertsNested(env, s, i, d);
    if k == KOneOf {
      OneOfAgrees(env, v, d, refs);
    } else {
      AllAnyAgree(env, v, d, refs);
    }
  }

  lemma ManyAgrees(env: Env, s: Tree, d: Tree, i: nat, f: Fields, k: Kw)
    requires s.Obj? && f == FieldsUpTo(env, s.members, |s.members|) && i < |s.members| && k == KwOf(s.members[i])
    requires Effective(env, s.members, k, i) && IsManyKw(k)
    ensures KwAgrees(env, s, d, f, k, i)
  {
    hide *;
    var v := s.members[i].val;
    var rel := PosOf(s.members, i) + 1;
    ManyKws(k);
    EffectiveMeans(env, s.members, k, i);
    ManyUpdates(env, k, rel, v);
    InstrCases(f, k, Get(f, k));
    AgreesIs(env, s, d, f, k, i);
    if IsArray(v) {
      EntryRefSubs(rel + 1, v.items);
      ManyAsserts(env, s, i, d, k, v, EntryRefs(rel + 1, v.items));
      AllHoldOne(env, ManyI(k, |v.items|, EntryRefs(rel + 1, v.items)), d);
      PlainHolds(env, ManyI(k, |v.items|, EntryRefs(rel + 1, v.items)), d);
    } else {
      ManyAssertsNothing(env, s, i, d, k);
      AllHoldOne(env, UniqueI, d);
    }
  }

  lemma ManyAssertsNothing(env: Env, s: Tree, i: nat, d: Tree, k: Kw)
    requires s.Obj? && i < |s.members| && k == KwOf(s.members[i]) && IsManyKw(k) && !IsArray(s.members[i].val)
    ensures Asserts(env, s, i, d)
  {
    hide *;
    ManyKws(k);
    AssertsNested(env, s, i, d);
  }

  lemma RequiredHolds(env: Env, v: Tree, d: Tree, names: seq<bytes>)
    requires v.Arr? && |names| == |v.items| && forall j :: 0 <= j < |names| ==> names[j] == Text(TokenOf(v.items[j]))
    ensures InstrHolds(env, RequiredI(|names|, names), d) == RequiredOk(v, d)
    ensures v.items == [] ==> RequiredOk(v, d)
  {
    hide HasKey;
    hide CStr;
    hide Text;
    hide TokenOf;
  }

  lemma RequiredAgrees(env: Env, s: Tree, d: Tree, i: nat, f: Fields)
    requires s.Obj? && f == FieldsUpTo(env, s.members, |s.members|) && i < |s.members| && KRequired == KwOf(s.members[i])
    requires Effective(env, s.members, KRequired, i)
    ensures KwAgrees(env, s, d, f, KRequired, i)
  {
    hide *;
    var v := s.members[i].val;
    var rel := PosOf(s.members, i) + 1;
    ArrayIs(v);
    EffectiveMeans(env, s.members, KRequired, i);
    ManyUpdates(env, KRequired, rel, v);
    InstrCases(f, KRequired, Get(f, KRequired));
    AssertsNested(env, s, i, d);
    AgreesIs(env, s, d, f, KRequired, i);
    AllHoldOne(env, UniqueI, d);
    if IsArray(v) {
      var names := NamesOf(v.items);
      forall j | 0 <= j < |names| ensures names[j] == Text(TokenOf(v.items[j])) {
        NameAt(v.items, j);
      }
      RequiredHolds(env, v, d, names);
      AllHoldOne(env, RequiredI(|names|, names), d);
    }
  }

  // ---------------------------------------------------------------- if, then, else

  /** What the slot of a branch keyword says. */
  lemma BranchSlot(env: Env, s: Tree, d: Tree, f: Fields, branch: Kw, j: nat)
    requires s.Obj? && f == FieldsUpTo(env, s.members, |s.members|) && IsBranchKw(branch)
    requires Effective(env, s.members, branch, j)
    ensures BranchHolds(env, RefIn(Get(f, branch)), d) == BranchOk(env, s, branch, d)
  {
    hide *;
    EffectiveMeans(env, s.members, branch, j);
    BranchCases(env, s, branch, j, d);
    if j < |s.members| {
      SubUpdates(env, branch, PosOf(s.members, j) + 1, s.members[j].val);
      RefInIs(env, Get(f, branch), d);
    } else {
      RefInIs(env, Empty, d);
    }
  }

  lemma RefInIs(env: Env, slot: Slot, d: Tree)
    ensures slot.Empty? ==> BranchHolds(env, RefIn(slot), d)
    ensures slot.Sub? ==> BranchHolds(env, RefIn(slot), d) == Accepts(env, slot.ref.sub, d) && RefIn(slot) == Some(slot.ref)
    ensures slot.Empty? ==> RefIn(slot) == None
  {
    hide Accepts;
  }

  lemma BranchCases(env: Env, s: Tree, branch: Kw, j: nat, d: Tree)
    requires s.Obj? && IsBranchKw(branch) && Effective(env, s.members, branch, j)
    ensures j < |s.members| && ValidSub(s.members[j].val) ==> BranchOk(env, s, branch, d) == Accepts(env, s.members[j].val, d)
    ensures !(j < |s.members| && ValidSub(s.members[j].val)) ==> BranchOk(env, s, branch, d)
  {
    hide Accepts;
    hide ValidSub;
    hide KwOf;
    hide Replaced;
    hide FieldsUpTo;
    hide Update;
    hide Get;
    TakesBranch(branch);
    hide TakesOver;
  }

  lemma TakesBranch(branch: Kw)
    ensures forall v: Tree :: IsBranchKw(branch) ==> TakesOver(branch, v) == ValidSub(v)
  {
    hide ValidSub;
  }

  lemma IfHolds(env: Env, cond: Ref, thn: Option<Ref>, els: Option<Ref>, d: Tree)
    ensures InstrHolds(env, IfI(cond, thn, els), d)
         == if Accepts(env, cond.sub, d) then BranchHolds(env, thn, d) else BranchHolds(env, els, d)
  {
    hide Accepts;
    hide BranchHolds;
  }

  lemma IfInstr(f: Fields)
    ensures InstrOf(f, KIf)
         == if Get(f, KIf).Sub? then [IfI(Get(f, KIf).ref, RefIn(Get(f, KThen)), RefIn(Get(f, KElse)))] else []
  {
    hide Get;
    hide RefIn;
  }

  lemma BranchKws()
    ensures IsBranchKw(KThen) && IsBranchKw(KElse) && IsSubKw(KIf)
  {
  }

  lemma IfAgrees(env: Env, s: Tree, d: Tree, i: nat, f: Fields)
    requires s.Obj? && f == FieldsUpTo(env, s.members, |s.members|) && i < |s.members| && KIf == KwOf(s.members[i])
    requires Effective(env, s.members, KIf, i) && ExactUpTo(s.members, |s.members|)
    ensures KwAgrees(env, s, d, f, KIf, i)
  {
    hide *;
    var v := s.members[i].val;
    BranchKws();
    EffectiveMeans(env, s.members, KIf, i);
    SubUpdates(env, KIf, PosOf(s.members, i) + 1, v);
    IfInstr(f);
    AssertsIf(env, s, i, d);
    AgreesIs(env, s, d, f, KIf, i);
    AllHoldOne(env, UniqueI, d);
    if ValidSub(v) {
      var t := FindMember(env, s.members, KThen);
      var e := FindMember(env, s.members, KElse);
      BranchSlot(env, s, d, f, KThen, t);
      BranchSlot(env, s, d, f, KElse, e);
      var cond := Ref(PosOf(s.members, i) + 1, v);
      IfHolds(env, cond, RefIn(Get(f, KThen)), RefIn(Get(f, KElse)), d);
      AllHoldOne(env, IfI(cond, RefIn(Get(f, KThen)), RefIn(Get(f, KElse))), d);
    }
  }
}
