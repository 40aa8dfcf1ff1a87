/** Pass 1: the sizes it computes, the offsets it assigns, and exactly when they agree with
    what pass 2 writes (src/validation/schema.c). */
module Sizes {
  import opened Bytes
  import opened Ast
  import opened Keywords
  import opened Semantics
  import opened Layout
  import opened Code

  function Entries(t: Tree): nat {
    match t
    case Leaf(_, _) => 0
    case Arr(_, items) => |items|
    case Obj(_, members) => |members|
  }

  /** What pass 1 adds for one member. */
  function Cost(k: Kw, v: Tree): nat {
    if k == KType || IsIntKw(k) then 5
    else if IsNumKw(k) || IsStrKw(k) then 9
    else if k == KUniqueItems then (if IsTrue(v) then 1 else 0)
    else if IsSubKw(k) then (if !ValidSub(v) then 0 else if k == KIf then 13 else 5)
    else if IsManyKw(k) then (if IsArray(v) then 5 + 4 * Entries(v) else 0)
    else if k == KRequired then (if IsArray(v) then 5 + 8 * Entries(v) else 0)
    else if IsPropsKw(k) then (if IsObject(v) then 12 * Entries(v) else 0)
    else 0
  }

  function CostsUpTo(ms: seq<Member>, i: nat): nat
    requires i <= |ms|
  {
    if i == 0 then 0 else CostsUpTo(ms, i - 1) + Cost(KwOf(ms[i - 1]), ms[i - 1].val)
  }

  /** Number of entries under all object-valued members of one property keyword. */
  function PropCount(ms: seq<Member>, k: Kw, i: nat): nat
    requires i <= |ms|
  {
    if i == 0 then 0
    else PropCount(ms, k, i - 1)
         + (if KwOf(ms[i - 1]) == k && IsObject(ms[i - 1].val) then Entries(ms[i - 1].val) else 0)
  }

  predicate HasAdditional(ms: seq<Member>, i: nat)
    requires i <= |ms|
  {
    exists j :: 0 <= j < i && KwOf(ms[j]) == KAdditionalProperties
  }

  predicate NeedsProps(ms: seq<Member>) {
    PropCount(ms, KProperties, |ms|) > 0 || PropCount(ms, KPatternProperties, |ms|) > 0
    || HasAdditional(ms, |ms|)
  }

  /** `own_size` of a schema object. */
  function OwnSize(ms: seq<Member>): nat {
    CostsUpTo(ms, |ms|) + (if NeedsProps(ms) then 13 else 0) + 1
  }

  // ---------------------------------------------------------------- what pass 2 emits

  function SlotSize(k: Kw, s: Slot): nat {
    match s
    case Empty => 0
    case Types(_) => 5
    case Num(_) => 9
    case Int(_) => 5
    case Flag(on) => if on then 1 else 0
    case Str(_) => 9
    case Sub(_) => if k == KIf then 13 else if IsSubKw(k) then 5 else 0
    case Many(last, count) =>
      if IsManyKw(k) then 5 + 4 * Entries(last.sub)
      else if count == 0 then 0
      else if k == KRequired then 5 + 8 * Entries(last.sub)
      else 12 * Entries(last.sub)
  }

  /** The kinds of slot a keyword can have. */
  predicate SlotFits(k: Kw, s: Slot) {
    match s
    case Empty => true
    case Types(_) => k == KType
    case Num(_) => IsNumKw(k)
    case Int(_) => IsIntKw(k)
    case Flag(_) => k == KUniqueItems
    case Str(_) => IsStrKw(k)
    case Sub(ref) => (IsSubKw(k) && ValidSub(ref.sub)) || (IsBranchKw(k) && ValidSub(ref.sub)) || k == KAdditionalProperties
    case Many(last, count) =>
      ((IsManyKw(k) || k == KRequired) && IsArray(last.sub)) || (IsPropsKw(k) && IsObject(last.sub))
  }

  ghost predicate FieldsFit(f: Fields) {
    forall k :: k in f ==> SlotFits(k, f[k])
  }

  predicate EmptyRequired(m: Member) {
    KwOf(m) == KRequired && IsArray(m.val) && m.val.items == []
  }

  /** `a` costs code that `b`, coming later, takes away. */
  predicate Clash(a: Member, b: Member) {
    KwOf(a) == KwOf(b) && Cost(KwOf(a), a.val) > 0 && TakesOver(KwOf(b), b.val)
  }

  /** No member that costs code is overwritten, and no `required` is an empty array. */
  predicate ExactUpTo(ms: seq<Member>, i: nat)
    requires i <= |ms|
  {
    forall b :: 0 <= b < i ==> !EmptyRequired(ms[b]) && forall a :: 0 <= a < b ==> !Clash(ms[a], ms[b])
  }

  lemma UpdateFits(env: Env, prev: Slot, k: Kw, rel: nat, v: Tree)
    requires SlotFits(k, prev)
    ensures SlotFits(k, Update(env, prev, k, rel, v))
  {
    hide ToDouble;
    hide ToInt32;
    hide TypeSet;
    hide IsTrue;
    hide IsStr;
    hide CountIn;
    hide TypesIn;
    hide IsNumKw;
    hide IsIntKw;
    hide IsStrKw;
    hide IsSubKw;
    hide IsBranchKw;
    hide IsManyKw;
    hide IsPropsKw;
    hide ValidSub;
    hide IsArray;
    hide IsObject;
  }

  lemma {:induction false} FieldsUpToFit(env: Env, ms: seq<Member>, i: nat)
    requires i <= |ms|
    ensures FieldsFit(FieldsUpTo(env, ms, i))
  {
    hide KwOf;
    hide Update;
    hide SlotFits;
    if i > 0 {
      FieldsUpToFit(env, ms, i - 1);
      var f := FieldsUpTo(env, ms, i - 1);
      var k := KwOf(ms[i - 1]);
      GetFits(f, k);
      UpdateFits(env, Get(f, k), k, PosOf(ms, i - 1) + 1, ms[i - 1].val);
    }
  }

  lemma GetFits(f: Fields, k: Kw)
    requires FieldsFit(f)
    ensures SlotFits(k, Get(f, k))
  {
  }

  /** One member never makes pass 2 emit more than pass 1 counted, and makes it emit less
      exactly when it overwrites something or is an empty `required`. */
  ghost predicate SizeStep(env: Env, prev: Slot, k: Kw, rel: nat, v: Tree) {
    var now := SlotSize(k, Update(env, prev, k, rel, v));
    var due := SlotSize(k, prev) + Cost(k, v);
    && now <= due
    && (now == due <==>
        !(SlotSize(k, prev) > 0 && TakesOver(k, v)) && !(k == KRequired && IsArray(v) && v.items == []))
  }

  lemma SizePlain(env: Env, prev: Slot, k: Kw, rel: nat, v: Tree)
    requires SlotFits(k, prev)
    requires k == KType || IsIntKw(k) || IsNumKw(k) || IsStrKw(k)
    ensures SizeStep(env, prev, k, rel, v)
  {
    PlainTakes(k, v);
    KindsApart(k);
    hide TakesOver;
    hide ToDouble;
    hide ToInt32;
    hide TypeSet;
    hide ValidSub;
    hide IsArray;
    hide IsObject;
    hide IsTrue;
    hide IsStr;
    hide IsNumKw;
    hide IsIntKw;
    hide IsStrKw;
    hide IsSubKw;
    hide IsBranchKw;
    hide IsManyKw;
    hide IsPropsKw;
  }

  lemma KindsApart(k: Kw)
    ensures IsIntKw(k) ==> !IsNumKw(k)
    ensures IsStrKw(k) ==> !IsNumKw(k) && !IsIntKw(k)
    ensures k == KType || k == KUniqueItems ==> !IsNumKw(k) && !IsIntKw(k) && !IsStrKw(k)
  {
  }

  lemma PlainTakes(k: Kw, v: Tree)
    requires k == KType || IsIntKw(k) || IsNumKw(k) || IsStrKw(k)
    ensures TakesOver(k, v) && k != KRequired
  {
    SubApart(k);
    ManyApart(k);
    PropsApart(k);
    PlainApart(k);
    hide ValidSub;
    hide IsArray;
    hide IsObject;
    hide IsNumKw;
    hide IsIntKw;
    hide IsStrKw;
    hide IsSubKw;
    hide IsBranchKw;
    hide IsManyKw;
    hide IsPropsKw;
  }

  lemma SizeFlag(env: Env, prev: Slot, k: Kw, rel: nat, v: Tree)
    requires SlotFits(k, prev)
    requires k == KUniqueItems
    ensures SizeStep(env, prev, k, rel, v)
  {
    hide ToDouble;
    hide ToInt32;
    hide TypeSet;
  }

  lemma SizeSub(env: Env, prev: Slot, k: Kw, rel: nat, v: Tree)
    requires SlotFits(k, prev)
    requires IsSubKw(k)
    ensures SizeStep(env, prev, k, rel, v)
  {
    hide ToDouble;
    hide ToInt32;
    hide TypeSet;
  }

  lemma SizeMany(env: Env, prev: Slot, k: Kw, rel: nat, v: Tree)
    requires SlotFits(k, prev)
    requires IsManyKw(k)
    ensures SizeStep(env, prev, k, rel, v)
  {
    hide ToDouble;
    hide ToInt32;
    hide TypeSet;
  }

  lemma SizeRequired(env: Env, prev: Slot, k: Kw, rel: nat, v: Tree)
    requires SlotFits(k, prev)
    requires k == KRequired
    ensures SizeStep(env, prev, k, rel, v)
  {
    hide ToDouble;
    hide ToInt32;
    hide TypeSet;
  }

  lemma SizeProps(env: Env, prev: Slot, k: Kw, rel: nat, v: Tree)
    requires SlotFits(k, prev)
    requires IsPropsKw(k)
    ensures SizeStep(env, prev, k, rel, v)
  {
    hide ToDouble;
    hide ToInt32;
    hide TypeSet;
  }

  lemma SizeBranch(env: Env, prev: Slot, k: Kw, rel: nat, v: Tree)
    requires SlotFits(k, prev)
    requires IsBranchKw(k)
    ensures SizeStep(env, prev, k, rel, v)
  {
    hide ToDouble;
    hide ToInt32;
    hide TypeSet;
  }

  lemma SizeAdditional(env: Env, prev: Slot, k: Kw, rel: nat, v: Tree)
    requires SlotFits(k, prev)
    requires k == KAdditionalProperties
    ensures SizeStep(env, prev, k, rel, v)
  {
    hide ToDouble;
    hide ToInt32;
    hide TypeSet;
  }

  lemma SizeUnknown(env: Env, prev: Slot, k: Kw, rel: nat, v: Tree)
    requires SlotFits(k, prev)
    requires k == KUnknown
    ensures SizeStep(env, prev, k, rel, v)
  {
    hide Update;
    hide TakesOver;
    hide SlotSize;
    hide SlotFits;
    hide Cost;
    UpdateUnknown(env, prev, rel, v);
    CostUnknown(v);
  }

  lemma CostUnknown(v: Tree)
    ensures Cost(KUnknown, v) == 0
  {
    hide IsTrue;
    hide ValidSub;
    hide Entries;
    hide IsArray;
    hide IsObject;
    UnknownIs();
    hide IsNumKw;
    hide IsIntKw;
    hide IsStrKw;
    hide IsSubKw;
    hide IsBranchKw;
    hide IsManyKw;
    hide IsPropsKw;
  }

  lemma UpdateUnknown(env: Env, prev: Slot, rel: nat, v: Tree)
    ensures Update(env, prev, KUnknown, rel, v) == prev
    ensures !TakesOver(KUnknown, v)
  {
    hide ToDouble;
    hide ToInt32;
    hide TypeSet;
    hide ValidSub;
    hide IsArray;
    hide IsObject;
    hide IsTrue;
    hide IsStr;
    hide CountIn;
    hide TypesIn;
    UnknownIs();
    hide IsNumKw;
    hide IsIntKw;
    hide IsStrKw;
    hide IsSubKw;
    hide IsBranchKw;
    hide IsManyKw;
    hide IsPropsKw;
  }

  lemma UnknownIs()
    ensures !IsNumKw(KUnknown) && !IsIntKw(KUnknown) && !IsStrKw(KUnknown) && !IsSubKw(KUnknown)
    ensures !IsBranchKw(KUnknown) && !IsManyKw(KUnknown) && !IsPropsKw(KUnknown)
  {
  }

  lemma GetUpdated(f: Fields, k: Kw, s: Slot, j: Kw)
    ensures Get(f[k := s], j) == if j == k then s else Get(f, j)
  {
  }

  lemma UpdateSize(env: Env, prev: Slot, k: Kw, rel: nat, v: Tree)
    requires SlotFits(k, prev)
    ensures SizeStep(env, prev, k, rel, v)
  {
    hide SizeStep;
    hide SlotFits;
    if k == KType || IsIntKw(k) || IsNumKw(k) || IsStrKw(k) {
      SizePlain(env, prev, k, rel, v);
    } else if k == KUniqueItems {
      SizeFlag(env, prev, k, rel, v);
    } else if IsSubKw(k) {
      SizeSub(env, prev, k, rel, v);
    } else if IsManyKw(k) {
      SizeMany(env, prev, k, rel, v);
    } else if k == KRequired {
      SizeRequired(env, prev, k, rel, v);
    } else if IsPropsKw(k) {
      SizeProps(env, prev, k, rel, v);
    } else if IsBranchKw(k) {
      SizeBranch(env, prev, k, rel, v);
    } else if k == KAdditionalProperties {
      SizeAdditional(env, prev, k, rel, v);
    } else {
      SizeUnknown(env, prev, k, rel, v);
    }
  }

  // ---------------------------------------------------------------- sums over keywords

  /** Every keyword that can cost code. */
  function Costly(): seq<Kw> {
    EmitFirst() + [KProperties, KPatternProperties]
  }

  predicate Distinct(ks: seq<Kw>) {
    forall i, j :: 0 <= i < j < |ks| ==> ks[i] != ks[j]
  }

  function SumSlots(f: Fields, ks: seq<Kw>): nat {
    if ks == [] then 0 else SlotSize(ks[0], Get(f, ks[0])) + SumSlots(f, ks[1..])
  }

  lemma {:induction false} SumUnchanged(f: Fields, k: Kw, s: Slot, ks: seq<Kw>)
    requires k !in ks
    ensures SumSlots(f[k := s], ks) == SumSlots(f, ks)
  {
    hide SlotSize;
    if ks != [] {
      SumUnchanged(f, k, s, ks[1..]);
    }
  }

  lemma {:induction false} SumUpdated(f: Fields, k: Kw, s: Slot, ks: seq<Kw>)
    requires Distinct(ks) && k in ks
    ensures SumSlots(f[k := s], ks) + SlotSize(k, Get(f, k)) == SumSlots(f, ks) + SlotSize(k, s)
  {
    hide SlotSize;
    if ks[0] == k {
      SumUnchanged(f, k, s, ks[1..]);
    } else {
      SumUpdated(f, k, s, ks[1..]);
    }
  }

  /** The place of a keyword in the emission order. */
  function Rank(k: Kw): nat {
    match k
    case KType => 0
    case KMinimum => 1
    case KMaximum => 2
    case KMultipleOf => 3
    case KExclusiveMinimum => 4
    case KExclusiveMaximum => 5
    case KPattern => 6
    case KMinProperties => 7
    case KMaxProperties => 8
    case KUniqueItems => 9
    case KMinLength => 10
    case KMaxLength => 11
    case KMinItems => 12
    case KMaxItems => 13
    case KItems => 14
    case KContains => 15
    case KNot => 16
    case KAllOf => 17
    case KAnyOf => 18
    case KOneOf => 19
    case KIf => 20
    case KPropertyNames => 21
    case KFormat => 22
    case KRequired => 23
    case KProperties => 24
    case KPatternProperties => 25
    case _ => 26
  }

  lemma CostlyRank(i: nat)
    requires i < |Costly()|
    ensures Rank(Costly()[i]) == i
  {
  }

  lemma CostlyDistinct()
    ensures Distinct(Costly())
  {
    hide Costly;
    hide Rank;
    forall i, j | 0 <= i < j < |Costly()| ensures Costly()[i] != Costly()[j] {
      CostlyRank(i);
      CostlyRank(j);
    }
  }

  lemma CostlyAll(k: Kw, s: Slot)
    requires k !in Costly() && SlotFits(k, s)
    ensures SlotSize(k, s) == 0
  {
  }

  /** One member changes the sum by what its keyword's slot changes. */
  lemma SumStep(f: Fields, k: Kw, now: Slot)
    requires SlotFits(k, Get(f, k)) && SlotFits(k, now)
    ensures SumSlots(f[k := now], Costly()) + SlotSize(k, Get(f, k)) == SumSlots(f, Costly()) + SlotSize(k, now)
  {
    hide *;
    CostlyDistinct();
    if k in Costly() {
      SumUpdated(f, k, now, Costly());
    } else {
      SumUnchanged(f, k, now, Costly());
      CostlyAll(k, Get(f, k));
      CostlyAll(k, now);
    }
  }

  // ---------------------------------------------------------------- agreement of the passes

  /** Some member before `i` costs code under this keyword. */
  ghost predicate Costs(ms: seq<Member>, i: nat, k: Kw)
    requires i <= |ms|
  {
    exists a :: 0 <= a < i && KwOf(ms[a]) == k && Cost(k, ms[a].val) > 0
  }

  ghost predicate SlotsMatch(f: Fields, ms: seq<Member>, i: nat)
    requires i <= |ms|
  {
    forall k :: MatchAt(f, ms, i, k)
  }

  ghost predicate MatchAt(f: Fields, ms: seq<Member>, i: nat, k: Kw)
    requires i <= |ms|
  {
    SlotSize(k, Get(f, k)) > 0 <==> Costs(ms, i, k)
  }

  lemma ExactSplit(ms: seq<Member>, i: nat)
    requires i < |ms|
    ensures ExactUpTo(ms, i + 1) <==>
            ExactUpTo(ms, i) && !EmptyRequired(ms[i])
            && !(Costs(ms, i, KwOf(ms[i])) && TakesOver(KwOf(ms[i]), ms[i].val))
  {
    hide KwOf;
    hide Cost;
    hide TakesOver;
    hide EmptyRequired;
  }

  /** Members that do not take over are ignored for their value. */
  lemma IdleKinds(k: Kw, v: Tree)
    requires !TakesOver(k, v)
    ensures !IsNumKw(k) && !IsIntKw(k) && !IsStrKw(k) && k != KType && k != KUniqueItems && k != KAdditionalProperties
    ensures IsSubKw(k) || IsBranchKw(k) ==> !ValidSub(v) && !IsManyKw(k) && k != KRequired && !IsPropsKw(k)
    ensures IsManyKw(k) || k == KRequired ==> !IsArray(v) && !IsPropsKw(k)
    ensures IsPropsKw(k) ==> !IsObject(v)
    ensures k == KUnknown || IsSubKw(k) || IsBranchKw(k) || IsManyKw(k) || k == KRequired || IsPropsKw(k)
  {
    UnknownIs();
    SubApart(k);
    ManyApart(k);
    PropsApart(k);
    PlainApart(k);
    hide ValidSub;
    hide IsArray;
    hide IsObject;
    hide IsNumKw;
    hide IsIntKw;
    hide IsStrKw;
    hide IsSubKw;
    hide IsBranchKw;
    hide IsManyKw;
    hide IsPropsKw;
  }

  /** A keyword that sets its slot whatever its value is. */
  predicate SetsAlways(k: Kw) {
    IsNumKw(k) || IsIntKw(k) || IsStrKw(k) || k == KType || k == KUniqueItems || k == KAdditionalProperties
  }

  lemma SubApart(k: Kw)
    ensures IsSubKw(k) || IsBranchKw(k) ==> !SetsAlways(k) && !IsManyKw(k) && k != KRequired && !IsPropsKw(k)
  {
    SubNotSet(k);
    hide SetsAlways;
  }

  lemma SubNotSet(k: Kw)
    ensures IsSubKw(k) || IsBranchKw(k) ==> !SetsAlways(k)
  {
  }

  lemma ManyApart(k: Kw)
    ensures IsManyKw(k) || k == KRequired ==> !SetsAlways(k) && !IsPropsKw(k)
  {
  }

  lemma PropsApart(k: Kw)
    ensures IsPropsKw(k) ==> !SetsAlways(k)
  {
  }

  lemma PlainApart(k: Kw)
    ensures SetsAlways(k) ==> k != KUnknown && k != KRequired
  {
  }

  lemma NotUpdated(env: Env, prev: Slot, k: Kw, rel: nat, v: Tree)
    requires !TakesOver(k, v)
    ensures Update(env, prev, k, rel, v) == prev
  {
    UnknownIs();
    IdleKinds(k, v);
    hide TakesOver;
    hide ToDouble;
    hide ToInt32;
    hide TypeSet;
    hide IsNumKw;
    hide IsIntKw;
    hide IsStrKw;
    hide IsSubKw;
    hide IsBranchKw;
    hide IsManyKw;
    hide IsPropsKw;
    hide ValidSub;
    hide IsArray;
    hide IsObject;
    hide IsStr;
    hide IsTrue;
    hide TypesIn;
    hide CountIn;
  }

  /** Pass 2 never emits more than pass 1 counted, and emits as much exactly when no
      member clashes with a later one. */
  lemma {:induction false} ExactFields(env: Env, ms: seq<Member>, i: nat)
    requires i <= |ms|
    ensures ExactSoFar(FieldsUpTo(env, ms, i), ms, i)
  {
    hide *;
    if i == 0 {
      ExactNothing(env, ms);
    } else {
      var f := FieldsUpTo(env, ms, i - 1);
      var k := KwOf(ms[i - 1]);
      ExactFields(env, ms, i - 1);
      FieldsUpToFit(env, ms, i - 1);
      FieldsStep(env, ms, i - 1);
      ExactStep(env, ms, i - 1, f, k, Get(f, k), PosOf(ms, i - 1) + 1);
    }
  }

  lemma FieldsStep(env: Env, ms: seq<Member>, i: nat)
    requires i < |ms|
    ensures FieldsUpTo(env, ms, i + 1)
         == FieldsUpTo(env, ms, i)[KwOf(ms[i]) := Update(env, Get(FieldsUpTo(env, ms, i), KwOf(ms[i])), KwOf(ms[i]), PosOf(ms, i) + 1, ms[i].val)]
  {
    hide KwOf;
    hide Update;
    hide PosOf;
  }

  lemma ExactNothing(env: Env, ms: seq<Member>)
    ensures ExactSoFar(FieldsUpTo(env, ms, 0), ms, 0)
  {
    hide Costly;
    hide KwOf;
    NothingSums(Costly());
  }

  ghost predicate ExactSoFar(f: Fields, ms: seq<Member>, i: nat)
    requires i <= |ms|
  {
    var sum := SumSlots(f, Costly());
    && sum <= CostsUpTo(ms, i)
    && (sum == CostsUpTo(ms, i) <==> ExactUpTo(ms, i))
    && (ExactUpTo(ms, i) ==> SlotsMatch(f, ms, i))
  }

  lemma {:induction false} NothingSums(ks: seq<Kw>)
    ensures SumSlots(map[], ks) == 0
  {
    if ks != [] {
      NothingSums(ks[1..]);
    }
  }

  lemma ExactStep(env: Env, ms: seq<Member>, i: nat, f: Fields, k: Kw, prev: Slot, rel: nat)
    requires i < |ms| && FieldsFit(f) && ExactSoFar(f, ms, i)
    requires k == KwOf(ms[i]) && prev == Get(f, k)
    ensures ExactSoFar(f[k := Update(env, prev, k, rel, ms[i].val)], ms, i + 1)
  {
    var now := Update(env, prev, k, rel, ms[i].val);
    hide *;
    GetFits(f, k);
    UpdateFits(env, prev, k, rel, ms[i].val);
    UpdateSize(env, prev, k, rel, ms[i].val);
    SumStep(f, k, now);
    ExactStepSums(env, ms, i, f, now, k, rel, prev);
    if ExactUpTo(ms, i + 1) {
      SoFarMatches(f, ms, i);
      SlotsMatchStep(f, ms, i, now, k);
    }
    ExactConclude(f[k := now], ms, i + 1);
  }

  lemma SoFarMatches(f: Fields, ms: seq<Member>, i: nat)
    requires i <= |ms| && ExactSoFar(f, ms, i) && ExactUpTo(ms, i)
    ensures SlotsMatch(f, ms, i)
  {
    hide SumSlots;
    hide ExactUpTo;
    hide SlotsMatch;
    hide CostsUpTo;
  }

  lemma ExactConclude(f: Fields, ms: seq<Member>, i: nat)
    requires i <= |ms|
    ensures ExactSoFar(f, ms, i) <==>
            (&& SumSlots(f, Costly()) <= CostsUpTo(ms, i)
             && (SumSlots(f, Costly()) == CostsUpTo(ms, i) <==> ExactUpTo(ms, i))
             && (ExactUpTo(ms, i) ==> SlotsMatch(f, ms, i)))
  {
    hide SumSlots;
    hide ExactUpTo;
    hide SlotsMatch;
    hide CostsUpTo;
    hide Costly;
  }

  /** The arithmetic of one step. */
  lemma ExactStepSums(env: Env, ms: seq<Member>, i: nat, f: Fields, now: Slot, k: Kw, rel: nat, prev: Slot)
    requires i < |ms| && k == KwOf(ms[i]) && prev == Get(f, k) && ExactSoFar(f, ms, i)
    requires now == Update(env, prev, k, rel, ms[i].val) && SizeStep(env, prev, k, rel, ms[i].val)
    requires SumSlots(f[k := now], Costly()) + SlotSize(k, prev) == SumSlots(f, Costly()) + SlotSize(k, now)
    ensures SumSlots(f[k := now], Costly()) <= CostsUpTo(ms, i + 1)
    ensures SumSlots(f[k := now], Costly()) == CostsUpTo(ms, i + 1) <==> ExactUpTo(ms, i + 1)
    ensures ExactUpTo(ms, i + 1) ==>
            ExactUpTo(ms, i) && !(Costs(ms, i, k) && TakesOver(k, ms[i].val))
            && SlotSize(k, now) == SlotSize(k, prev) + Cost(k, ms[i].val)
  {
    hide *;
    ExactSplit(ms, i);
    CostsStep(ms, i);
    SizeStepMeans(env, prev, k, rel, ms[i].val);
    RequiredMeans(ms[i]);
    ExactConclude(f, ms, i);
    if ExactUpTo(ms, i) {
      SlotsMatchAt(f, ms, i, k);
    }
  }

  lemma CostsStep(ms: seq<Member>, i: nat)
    requires i < |ms|
    ensures CostsUpTo(ms, i + 1) == CostsUpTo(ms, i) + Cost(KwOf(ms[i]), ms[i].val)
  {
    hide KwOf;
    hide Cost;
  }

  lemma SizeStepMeans(env: Env, prev: Slot, k: Kw, rel: nat, v: Tree)
    requires SizeStep(env, prev, k, rel, v)
    ensures SlotSize(k, Update(env, prev, k, rel, v)) <= SlotSize(k, prev) + Cost(k, v)
    ensures SlotSize(k, Update(env, prev, k, rel, v)) == SlotSize(k, prev) + Cost(k, v) <==>
            !(SlotSize(k, prev) > 0 && TakesOver(k, v)) && !(k == KRequired && IsArray(v) && v.items == [])
  {
    hide SlotSize;
    hide Update;
    hide Cost;
    hide TakesOver;
  }

  lemma SlotsMatchAt(f: Fields, ms: seq<Member>, i: nat, k: Kw)
    requires i <= |ms| && SlotsMatch(f, ms, i)
    ensures SlotSize(k, Get(f, k)) > 0 <==> Costs(ms, i, k)
  {
    hide SlotSize;
    hide Costs;
    assert MatchAt(f, ms, i, k);
  }

  lemma RequiredMeans(m: Member)
    ensures EmptyRequired(m) <==> KwOf(m) == KRequired && IsArray(m.val) && m.val.items == []
  {
    hide KwOf;
  }

  lemma SlotsMatchStep(f: Fields, ms: seq<Member>, i: nat, now: Slot, k: Kw)
    requires i < |ms| && k == KwOf(ms[i]) && SlotsMatch(f, ms, i)
    requires SlotSize(k, now) == SlotSize(k, Get(f, k)) + Cost(k, ms[i].val)
    ensures SlotsMatch(f[k := now], ms, i + 1)
  {
    hide KwOf;
    hide SlotSize;
    hide Cost;
    hide MatchAt;
    var g, n := f[k := now], i + 1;
    forall j ensures MatchAt(g, ms, n, j) {
      MatchStep(f, ms, i, now, k, j);
    }
  }

  lemma CostsSplit(ms: seq<Member>, i: nat, k: Kw)
    requires i < |ms|
    ensures Costs(ms, i + 1, k) <==> Costs(ms, i, k) || (KwOf(ms[i]) == k && Cost(k, ms[i].val) > 0)
  {
    hide KwOf;
    hide Cost;
  }

  lemma MatchStep(f: Fields, ms: seq<Member>, i: nat, now: Slot, k: Kw, j: Kw)
    requires i < |ms| && k == KwOf(ms[i]) && SlotsMatch(f, ms, i)
    requires SlotSize(k, now) == SlotSize(k, Get(f, k)) + Cost(k, ms[i].val)
    ensures MatchAt(f[k := now], ms, i + 1, j)
  {
    hide KwOf;
    hide SlotSize;
    hide Cost;
    hide Costs;
    hide SlotsMatch;
    CostsSplit(ms, i, j);
    SlotsMatchAt(f, ms, i, j);
  }
}
