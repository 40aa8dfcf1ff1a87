/** Where the two passes put things, and exactly when they agree. */
module Agreement {
  import opened Bytes
  import opened Ast
  import opened Keywords
  import opened Semantics
  import opened Layout
  import opened Code
  import opened Sizes

  // ---------------------------------------------------------------- one node

  lemma EncOne(offs: seq<nat>, at: nat, i: Instr, d: nat)
    ensures EncAll(offs, at, [i], d) == Enc(offs, at, i, d)
    ensures DataAll([i]) == DataOf(i)
  {
    hide Enc;
    hide DataOf;
    assert [i][1..] == [];
  }

  function InstrLen(i: Instr): nat {
    match i
    case TypeI(_) => 5
    case NumI(_, _) => 9
    case CountI(_, _) => 5
    case UniqueI => 1
    case StrI(_, _) => 9
    case SubI(_, _) => 5
    case ManyI(_, _, refs) => 5 + 4 * |refs|
    case IfI(_, _, _) => 13
    case RequiredI(_, names) => 5 + 8 * |names|
    case PropsI(_, _, _, props, pats) => 13 + 12 * |props| + 12 * |pats|
  }

  lemma EncLen(offs: seq<nat>, at: nat, i: Instr, d: nat)
    ensures |Enc(offs, at, i, d)| == InstrLen(i)
  {
    hide U32;
    hide U64;
    hide EncRefs;
    hide EncNames;
    hide EncRules;
    hide EncStr;
    hide OpCode;
    hide Offset;
    hide OptOffset;
    hide MaskOf;
    hide RulesData;
  }

  lemma FirstKws(k: Kw)
    requires k in EmitFirst()
    ensures Rank(k) < 24
  {
    hide Rank;
    var i :| 0 <= i < |EmitFirst()| && EmitFirst()[i] == k;
    CostlyRank(i);
  }

  lemma InstrSize(f: Fields, k: Kw)
    requires SlotFits(k, Get(f, k)) && Rank(k) < 24
    ensures InstrOf(f, k) == [] ==> SlotSize(k, Get(f, k)) == 0
    ensures InstrOf(f, k) != [] ==> |InstrOf(f, k)| == 1 && InstrLen(InstrOf(f, k)[0]) == SlotSize(k, Get(f, k))
  {
    hide IsObject;
    hide IsTrue;
    hide Get;
    hide RefIn;
    hide Text;
  }

  lemma KeywordSize(offs: seq<nat>, at: nat, f: Fields, k: Kw, d: nat)
    requires SlotFits(k, Get(f, k)) && Rank(k) < 24
    ensures |EncAll(offs, at, InstrOf(f, k), d)| == SlotSize(k, Get(f, k))
  {
    hide *;
    InstrSize(f, k);
    if InstrOf(f, k) == [] {
      EmptySize(offs, at, d);
    } else {
      var i := InstrOf(f, k)[0];
      assert InstrOf(f, k) == [i];
      EncOne(offs, at, i, d);
      EncLen(offs, at, i, d);
    }
  }

  lemma EmptySize(offs: seq<nat>, at: nat, d: nat)
    ensures EncAll(offs, at, [], d) == []
    ensures DataAll([]) == []
  {
  }

  lemma {:induction false} FirstSize(offs: seq<nat>, at: nat, f: Fields, ks: seq<Kw>, d: nat)
    requires FieldsFit(f) && forall i :: 0 <= i < |ks| ==> Rank(ks[i]) < 24
    ensures |EncAll(offs, at, InstrsOf(f, ks), d)| == SumSlots(f, ks)
    decreases ks
  {
    hide InstrOf;
    hide SlotSize;
    hide FieldsFit;
    hide EncAll;
    hide DataAll;
    hide Rank;
    if ks == [] {
      EmptySize(offs, at, d);
    } else {
      var one := InstrOf(f, ks[0]);
      GetFits(f, ks[0]);
      KeywordSize(offs, at, f, ks[0], d);
      EncAllAppend(offs, at, one, InstrsOf(f, ks[1..]), d);
      FirstSize(offs, at, f, ks[1..], d + |DataAll(one)|);
    }
  }

  lemma PropsInstrSize(f: Fields)
    requires SlotFits(KProperties, Get(f, KProperties)) && SlotFits(KPatternProperties, Get(f, KPatternProperties))
    ensures InstrOf(f, KProperties) == [] <==> !HasProps(f)
    ensures !HasProps(f) ==> SlotSize(KProperties, Get(f, KProperties)) == 0 && SlotSize(KPatternProperties, Get(f, KPatternProperties)) == 0
    ensures HasProps(f) ==>
            && |InstrOf(f, KProperties)| == 1
            && InstrLen(InstrOf(f, KProperties)[0])
               == 13 + SlotSize(KProperties, Get(f, KProperties)) + SlotSize(KPatternProperties, Get(f, KPatternProperties))
  {
    hide Get;
    hide AddRuleOf;
    hide IsTrue;
    hide ValidSub;
    hide RulesOf;
  }

  lemma PropsSize(offs: seq<nat>, at: nat, f: Fields, d: nat)
    requires FieldsFit(f)
    ensures |EncAll(offs, at, InstrOf(f, KProperties), d)|
         == (if HasProps(f) then 13 else 0)
            + SlotSize(KProperties, Get(f, KProperties)) + SlotSize(KPatternProperties, Get(f, KPatternProperties))
  {
    hide *;
    GetFits(f, KProperties);
    GetFits(f, KPatternProperties);
    PropsInstrSize(f);
    if HasProps(f) {
      var i := InstrOf(f, KProperties)[0];
      assert InstrOf(f, KProperties) == [i];
      EncOne(offs, at, i, d);
      EncLen(offs, at, i, d);
    } else {
      EmptySize(offs, at, d);
    }
  }

  lemma {:induction false} InstrsAppend(f: Fields, ks: seq<Kw>, k: Kw)
    ensures InstrsOf(f, ks + [k]) == InstrsOf(f, ks) + InstrOf(f, k)
  {
    hide InstrOf;
    if ks != [] {
      InstrsAppend(f, ks[1..], k);
      assert (ks + [k])[1..] == ks[1..] + [k];
      Regroup(InstrOf(f, ks[0]), InstrsOf(f, ks[1..]), InstrOf(f, k));
    } else {
      assert [k][1..] == [];
    }
  }

  lemma {:induction false} SumAppend(f: Fields, ks: seq<Kw>, js: seq<Kw>)
    ensures SumSlots(f, ks + js) == SumSlots(f, ks) + SumSlots(f, js)
  {
    hide SlotSize;
    if ks == [] {
      assert ks + js == js;
    } else {
      SumAppend(f, ks[1..], js);
      assert (ks + js)[1..] == ks[1..] + js;
    }
  }

  lemma SumLast(f: Fields)
    ensures SumSlots(f, Costly())
         == SumSlots(f, EmitFirst()) + SlotSize(KProperties, Get(f, KProperties)) + SlotSize(KPatternProperties, Get(f, KPatternProperties))
  {
    hide SlotSize;
    hide EmitFirst;
    SumAppend(f, EmitFirst(), [KProperties, KPatternProperties]);
    var last := [KProperties, KPatternProperties];
    assert last[1..] == [KPatternProperties];
    assert [KPatternProperties][1..] == [];
    assert SumSlots(f, last) == SlotSize(KProperties, Get(f, KProperties)) + SumSlots(f, last[1..]);
    assert SumSlots(f, []) == 0;
  }

  lemma OrderSplit()
    ensures EmitOrder() == EmitFirst() + [KProperties]
  {
    hide EmitFirst;
  }

  lemma AllInstrsSize(offs: seq<nat>, at: nat, f: Fields, d: nat)
    requires FieldsFit(f)
    ensures |EncAll(offs, at, InstrsOf(f, EmitOrder()), d)| == SumSlots(f, Costly()) + (if HasProps(f) then 13 else 0)
  {
    hide *;
    var first := InstrsOf(f, EmitFirst());
    OrderSplit();
    forall i | 0 <= i < |EmitFirst()| ensures Rank(EmitFirst()[i]) < 24 {
      FirstKws(EmitFirst()[i]);
    }
    InstrsAppend(f, EmitFirst(), KProperties);
    EncAllAppend(offs, at, first, InstrOf(f, KProperties), d);
    FirstSize(offs, at, f, EmitFirst(), d);
    PropsSize(offs, at, f, d + |DataAll(first)|);
    SumLast(f);
  }

  lemma {:induction false} PropCounts(env: Env, ms: seq<Member>, k: Kw, i: nat)
    requires i <= |ms| && IsPropsKw(k)
    ensures CountIn(Get(FieldsUpTo(env, ms, i), k)) == PropCount(ms, k, i)
  {
    hide KwOf;
    hide Update;
    if i > 0 {
      PropCounts(env, ms, k, i - 1);
      PropUpdate(env, Get(FieldsUpTo(env, ms, i - 1), k), k, PosOf(ms, i - 1) + 1, ms[i - 1].val);
    }
  }

  lemma PropUpdate(env: Env, prev: Slot, k: Kw, rel: nat, v: Tree)
    requires IsPropsKw(k)
    ensures CountIn(Update(env, prev, k, rel, v)) == CountIn(prev) + (if IsObject(v) then Entries(v) else 0)
  {
    hide ToDouble;
    hide ToInt32;
    hide TypeSet;
  }

  lemma {:induction false} AdditionalSeen(env: Env, ms: seq<Member>, i: nat)
    requires i <= |ms|
    ensures Get(FieldsUpTo(env, ms, i), KAdditionalProperties).Sub? <==> HasAdditional(ms, i)
  {
    hide KwOf;
    hide Update;
    if i > 0 {
      AdditionalSeen(env, ms, i - 1);
      AdditionalUpdate(env, Get(FieldsUpTo(env, ms, i - 1), KAdditionalProperties), PosOf(ms, i - 1) + 1, ms[i - 1].val);
    }
  }

  lemma AdditionalUpdate(env: Env, prev: Slot, rel: nat, v: Tree)
    ensures Update(env, prev, KAdditionalProperties, rel, v).Sub?
  {
    hide ToDouble;
    hide ToInt32;
    hide TypeSet;
  }

  lemma HasPropsAgrees(env: Env, ms: seq<Member>)
    ensures HasProps(FieldsUpTo(env, ms, |ms|)) == NeedsProps(ms)
  {
    hide FieldsUpTo;
    hide Get;
    hide CountIn;
    hide PropCount;
    hide HasAdditional;
    PropCounts(env, ms, KProperties, |ms|);
    PropCounts(env, ms, KPatternProperties, |ms|);
    AdditionalSeen(env, ms, |ms|);
  }

  /** The bytes pass 2 writes for one node. */
  function NodeLen(env: Env, t: Tree): nat {
    if IsObject(t) then
      SumSlots(Collected(env, t), Costly()) + (if HasProps(Collected(env, t)) then 13 else 0) + 1
    else 1
  }

  lemma EncNodeLen(env: Env, offs: seq<nat>, at: nat, t: Tree, d: nat)
    ensures |EncNode(env, offs, at, t, d)| == NodeLen(env, t)
  {
    hide EncAll;
    hide InstrsOf;
    hide SumSlots;
    hide HasProps;
    hide EmitOrder;
    hide Costly;
    hide FieldsUpTo;
    if IsObject(t) {
      FieldsUpToFit(env, t.members, |t.members|);
      AllInstrsSize(offs, at, Collected(env, t), d);
    } else {
      EmptySize(offs, at, d);
    }
  }

  /** What pass 1 counts for one node. */
  function NodeSize(t: Tree): (n: nat)
    ensures n >= 1
  {
    if IsObject(t) then OwnSize(t.members) else 1
  }

  predicate ExactNode(t: Tree) {
    IsObject(t) ==> ExactUpTo(t.members, |t.members|)
  }

  lemma NodeAgrees(env: Env, t: Tree)
    ensures NodeLen(env, t) <= NodeSize(t)
    ensures NodeLen(env, t) == NodeSize(t) <==> ExactNode(t)
  {
    if IsObject(t) {
      var ms := t.members;
      var n := |ms|;
      assert Collected(env, t) == FieldsUpTo(env, ms, n);
      hide FieldsUpTo;
      hide SumSlots;
      hide Costly;
      hide HasProps;
      hide NeedsProps;
      hide CostsUpTo;
      hide ExactUpTo;
      hide ExactSoFar;
      ExactFields(env, ms, n);
      ExactConclude(FieldsUpTo(env, ms, n), ms, n);
      HasPropsAgrees(env, ms);
    }
  }

  // ---------------------------------------------------------------- the whole tree

  /** What pass 1 returns. */
  function Size1(t: Tree): (n: nat)
    ensures n >= 1
    decreases Len(t), |Visits(t)| + 1
  {
    NodeSize(t) + Size1UpTo(t, |Visits(t)|)
  }

  function Size1UpTo(t: Tree, k: nat): nat
    requires k <= |Visits(t)|
    decreases Len(t), k
  {
    if k == 0 then 0 else Size1UpTo(t, k - 1) + Size1(Visit(t, k - 1).sub)
  }

  /** How far pass 2 moves the code cursor. */
  function Size2(env: Env, t: Tree): (n: nat)
    decreases Len(t), |Visits(t)| + 1
  {
    NodeLen(env, t) + Size2UpTo(env, t, |Visits(t)|)
  }

  function Size2UpTo(env: Env, t: Tree, k: nat): nat
    requires k <= |Visits(t)|
    decreases Len(t), k
  {
    if k == 0 then 0 else Size2UpTo(env, t, k - 1) + Size2(env, Visit(t, k - 1).sub)
  }

  predicate Exact(t: Tree)
    decreases Len(t), |Visits(t)| + 1
  {
    ExactNode(t) && ExactVisits(t, |Visits(t)|)
  }

  predicate ExactVisits(t: Tree, k: nat)
    requires k <= |Visits(t)|
    decreases Len(t), k
  {
    k == 0 || (ExactVisits(t, k - 1) && Exact(Visit(t, k - 1).sub))
  }

  /** Pass 2 never outruns pass 1, and the two agree on the size of the code exactly when
      no visited schema node has a clash or an empty `required`. */
  lemma {:induction false} PassesAgree(env: Env, t: Tree)
    ensures Size2(env, t) <= Size1(t)
    ensures Size2(env, t) == Size1(t) <==> Exact(t)
    decreases Len(t), |Visits(t)| + 1
  {
    hide NodeLen;
    hide NodeSize;
    hide ExactNode;
    hide Visits;
    NodeAgrees(env, t);
    VisitsAgree(env, t, |Visits(t)|);
  }

  lemma {:induction false} VisitsAgree(env: Env, t: Tree, k: nat)
    requires k <= |Visits(t)|
    ensures Size2UpTo(env, t, k) <= Size1UpTo(t, k)
    ensures Size2UpTo(env, t, k) == Size1UpTo(t, k) <==> ExactVisits(t, k)
    decreases Len(t), k
  {
    hide Visits;
    hide Size1;
    hide Size2;
    hide Exact;
    hide Visit;
    if k > 0 {
      VisitsAgree(env, t, k - 1);
      PassesAgree(env, Visit(t, k - 1).sub);
    }
  }
}
