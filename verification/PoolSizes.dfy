/** The constant pool: pass 1 reserves the raw length of every string, pass 2 writes the
    decoded strings (src/validation/schema.c). */
module PoolSizes {
  import opened Bytes
  import opened Ast
  import opened Unescape
  import opened Keywords
  import opened Semantics
  import opened Layout
  import opened Code
  import opened Sizes
  import opened Agreement

  function ItemsData(items: seq<Tree>): nat {
    if items == [] then 0 else RawLen(TokenOf(items[0])) + ItemsData(items[1..])
  }

  function KeysData(ms: seq<Member>): nat {
    if ms == [] then 0 else RawLen(ms[0].key) + KeysData(ms[1..])
  }

  /** What pass 1 reserves for one member. */
  function Reserve(k: Kw, v: Tree): nat {
    if IsStrKw(k) then RawLen(TokenOf(v))
    else if k == KRequired && IsArray(v) then ItemsData(v.items)
    else if IsPropsKw(k) && IsObject(v) then KeysData(v.members)
    else 0
  }

  function ReserveUpTo(ms: seq<Member>, i: nat): nat
    requires i <= |ms|
  {
    if i == 0 then 0 else ReserveUpTo(ms, i - 1) + Reserve(KwOf(ms[i - 1]), ms[i - 1].val)
  }

  function NodeReserve(t: Tree): nat {
    if IsObject(t) then ReserveUpTo(t.members, |t.members|) else 0
  }

  /** The length of a string: raw, or as it is written. */
  function StrLen(raw: bool, t: Token): nat {
    if raw then RawLen(t) else |Text(t)|
  }

  function ItemsText(raw: bool, items: seq<Tree>): nat {
    if items == [] then 0 else StrLen(raw, TokenOf(items[0])) + ItemsText(raw, items[1..])
  }

  function KeysText(raw: bool, ms: seq<Member>): nat {
    if ms == [] then 0 else StrLen(raw, ms[0].key) + KeysText(raw, ms[1..])
  }

  /** The strings pass 2 takes from one keyword: their raw lengths, or what it writes. */
  function SlotData(raw: bool, k: Kw, s: Slot): nat {
    match s
    case Str(tok) => StrLen(raw, tok)
    case Many(last, count) =>
      if count == 0 then 0
      else if k == KRequired && last.sub.Arr? then ItemsText(raw, last.sub.items)
      else if IsPropsKw(k) && last.sub.Obj? then KeysText(raw, last.sub.members)
      else 0
    case _ => 0
  }

  function SumData(raw: bool, f: Fields, ks: seq<Kw>): nat {
    if ks == [] then 0 else SlotData(raw, ks[0], Get(f, ks[0])) + SumData(raw, f, ks[1..])
  }

  // ---------------------------------------------------------------- decoded against raw

  ghost predicate WfTree(t: Tree)
    decreases t
  {
    match t
    case Leaf(_, tok) => WfToken(tok)
    case Arr(_, items) => forall i :: 0 <= i < |items| ==> WfTree(items[i])
    case Obj(_, ms) => forall i :: 0 <= i < |ms| ==> WfToken(ms[i].key) && (assert ms[i].val < ms[i]; WfTree(ms[i].val))
  }

  lemma WfRoot(t: Tree)
    requires WfTree(t)
    ensures WfToken(TokenOf(t))
  {
  }

  predicate EscapeFree(t: Token) { t.kind == TString ==> !t.esc }

  lemma TextLen(t: Token)
    requires WfToken(t)
    ensures |Text(t)| <= RawLen(t)
    ensures |Text(t)| == RawLen(t) <==> EscapeFree(t)
  {
    hide Unescaped;
    UnescapedShrinks(t.raw);
  }

  lemma StrLenFits(raw: bool, t: Token)
    requires WfToken(t)
    ensures StrLen(raw, t) <= RawLen(t)
    ensures StrLen(raw, t) == RawLen(t) <==> raw || EscapeFree(t)
  {
    hide Text;
    hide RawLen;
    hide WfToken;
    hide EscapeFree;
    TextLen(t);
  }

  lemma {:induction false} ItemsTextFits(raw: bool, items: seq<Tree>)
    requires forall i :: 0 <= i < |items| ==> WfTree(items[i])
    ensures ItemsText(raw, items) <= ItemsData(items)
    ensures ItemsText(raw, items) == ItemsData(items)
       <==> raw || forall i :: 0 <= i < |items| ==> EscapeFree(TokenOf(items[i]))
  {
    hide StrLen;
    hide RawLen;
    hide WfTree;
    hide EscapeFree;
    if items != [] {
      WfRoot(items[0]);
      StrLenFits(raw, TokenOf(items[0]));
      ItemsTextFits(raw, items[1..]);
    }
  }

  lemma {:induction false} KeysTextFits(raw: bool, ms: seq<Member>)
    requires forall i :: 0 <= i < |ms| ==> WfToken(ms[i].key)
    ensures KeysText(raw, ms) <= KeysData(ms)
    ensures KeysText(raw, ms) == KeysData(ms)
       <==> raw || forall i :: 0 <= i < |ms| ==> EscapeFree(ms[i].key)
  {
    hide StrLen;
    hide RawLen;
    hide WfToken;
    hide EscapeFree;
    if ms != [] {
      StrLenFits(raw, ms[0].key);
      KeysTextFits(raw, ms[1..]);
    }
  }

  lemma {:induction false} NamesLen(items: seq<Tree>)
    ensures |NamesData(NamesOf(items))| == ItemsText(false, items)
  {
    hide Text;
    hide RawLen;
    if items != [] {
      NamesLen(items[1..]);
    }
  }

  lemma {:induction false} RulesLen(pos: nat, ms: seq<Member>)
    ensures |RulesData(RulesOf(pos, ms))| == KeysText(false, ms)
    decreases ms
  {
    hide Text;
    hide RawLen;
    hide Len;
    if ms != [] {
      RulesLen(pos + 1 + Len(ms[0].val), ms[1..]);
    }
  }

  /** No string this member puts into the pool was escaped. */
  predicate PlainMember(k: Kw, v: Tree) {
    if IsStrKw(k) then EscapeFree(TokenOf(v))
    else if k == KRequired && IsArray(v) then forall i :: 0 <= i < |v.items| ==> EscapeFree(TokenOf(v.items[i]))
    else if IsPropsKw(k) && IsObject(v) then forall i :: 0 <= i < |v.members| ==> EscapeFree(v.members[i].key)
    else true
  }

  /** Overwriting only loses data; decoding only shortens it. */
  ghost predicate DataStep(env: Env, raw: bool, prev: Slot, k: Kw, rel: nat, v: Tree) {
    var now := SlotData(raw, k, Update(env, prev, k, rel, v));
    && now <= SlotData(raw, k, prev) + Reserve(k, v)
    && (prev == Empty ==> (now == Reserve(k, v) <==> raw || PlainMember(k, v)))
  }

  lemma DataStr(env: Env, raw: bool, prev: Slot, k: Kw, rel: nat, v: Tree)
    requires WfTree(v) && IsStrKw(k)
    ensures DataStep(env, raw, prev, k, rel, v)
  {
    hide StrLen;
    hide WfTree;
    hide EscapeFree;
    hide RawLen;
    WfRoot(v);
    StrLenFits(raw, TokenOf(v));
  }

  lemma UpdateRequired(env: Env, prev: Slot, rel: nat, v: Tree)
    ensures Update(env, prev, KRequired, rel, v)
         == if IsArray(v) then Many(Ref(rel, v), CountIn(prev) + |v.items|) else prev
  {
    hide IsArray;
    hide CountIn;
    hide ToDouble;
    hide ToInt32;
    hide TypeSet;
    hide ValidSub;
  }

  lemma UpdateProps(env: Env, prev: Slot, k: Kw, rel: nat, v: Tree)
    requires IsPropsKw(k)
    ensures Update(env, prev, k, rel, v)
         == if IsObject(v) then Many(Ref(rel, v), CountIn(prev) + |v.members|) else prev
  {
    hide IsObject;
    hide CountIn;
    hide ToDouble;
    hide ToInt32;
    hide TypeSet;
    hide ValidSub;
  }

  lemma EmptyText(raw: bool)
    ensures ItemsText(raw, []) == 0 && KeysText(raw, []) == 0
  {
  }

  lemma WfItem(t: Tree, i: nat)
    requires WfTree(t) && t.Arr? && i < |t.items|
    ensures WfTree(t.items[i])
  {
    hide WfToken;
  }

  lemma WfMembers(t: Tree, i: nat)
    requires WfTree(t) && t.Obj? && i < |t.members|
    ensures WfToken(t.members[i].key) && WfTree(t.members[i].val)
  {
    hide WfToken;
  }

  lemma DataRequired(env: Env, raw: bool, prev: Slot, rel: nat, v: Tree)
    requires WfTree(v)
    ensures DataStep(env, raw, prev, KRequired, rel, v)
  {
    hide WfTree;
    hide EscapeFree;
    hide ItemsText;
    hide ItemsData;
    hide Update;
    UpdateRequired(env, prev, rel, v);
    if IsArray(v) {
      forall i | 0 <= i < |v.items| ensures WfTree(v.items[i]) {
        WfItem(v, i);
      }
      ItemsTextFits(raw, v.items);
      EmptyText(raw);
    }
  }

  lemma DataProps(env: Env, raw: bool, prev: Slot, k: Kw, rel: nat, v: Tree)
    requires WfTree(v) && IsPropsKw(k)
    ensures DataStep(env, raw, prev, k, rel, v)
  {
    hide WfTree;
    hide WfToken;
    hide EscapeFree;
    hide KeysText;
    hide KeysData;
    hide Update;
    UpdateProps(env, prev, k, rel, v);
    if IsObject(v) {
      forall i | 0 <= i < |v.members| ensures WfToken(v.members[i].key) {
        WfMembers(v, i);
      }
      KeysTextFits(raw, v.members);
      EmptyText(raw);
    }
  }

  lemma DataZero(raw: bool, k: Kw, s: Slot)
    requires !IsStrKw(k) && k != KRequired && !IsPropsKw(k) && SlotFits(k, s)
    ensures SlotData(raw, k, s) == 0
  {
    hide StrLen;
    hide ValidSub;
    hide IsArray;
    hide IsObject;
  }

  lemma DataRest(env: Env, raw: bool, prev: Slot, k: Kw, rel: nat, v: Tree)
    requires !IsStrKw(k) && k != KRequired && !IsPropsKw(k) && SlotFits(k, prev)
    ensures DataStep(env, raw, prev, k, rel, v)
  {
    hide Update;
    hide SlotFits;
    hide SlotData;
    hide IsStrKw;
    hide IsPropsKw;
    UpdateFits(env, prev, k, rel, v);
    DataZero(raw, k, prev);
    DataZero(raw, k, Update(env, prev, k, rel, v));
  }

  lemma UpdateData(env: Env, raw: bool, prev: Slot, k: Kw, rel: nat, v: Tree)
    requires WfTree(v) && SlotFits(k, prev)
    ensures DataStep(env, raw, prev, k, rel, v)
  {
    hide *;
    if IsStrKw(k) {
      DataStr(env, raw, prev, k, rel, v);
    } else if k == KRequired {
      DataRequired(env, raw, prev, rel, v);
    } else if IsPropsKw(k) {
      DataProps(env, raw, prev, k, rel, v);
    } else {
      DataRest(env, raw, prev, k, rel, v);
    }
  }

  // ---------------------------------------------------------------- sums

  lemma {:induction false} DataUnchanged(raw: bool, f: Fields, k: Kw, s: Slot, ks: seq<Kw>)
    requires k !in ks
    ensures SumData(raw, f[k := s], ks) == SumData(raw, f, ks)
  {
    hide SlotData;
    if ks != [] {
      DataUnchanged(raw, f, k, s, ks[1..]);
    }
  }

  lemma {:induction false} DataUpdated(raw: bool, f: Fields, k: Kw, s: Slot, ks: seq<Kw>)
    requires Distinct(ks) && k in ks
    ensures SumData(raw, f[k := s], ks) + SlotData(raw, k, Get(f, k)) == SumData(raw, f, ks) + SlotData(raw, k, s)
  {
    hide SlotData;
    if ks[0] == k {
      DataUnchanged(raw, f, k, s, ks[1..]);
    } else {
      DataUpdated(raw, f, k, s, ks[1..]);
    }
  }

  lemma CostlyData(raw: bool, k: Kw, s: Slot)
    requires k !in Costly() && SlotFits(k, s)
    ensures SlotData(raw, k, s) == 0
  {
    hide Text;
    hide NamesData;
    hide RulesData;
    hide NamesOf;
    hide RulesOf;
  }

  lemma SumDataStep(raw: bool, f: Fields, k: Kw, now: Slot)
    requires SlotFits(k, Get(f, k)) && SlotFits(k, now)
    ensures SumData(raw, f[k := now], Costly()) + SlotData(raw, k, Get(f, k)) == SumData(raw, f, Costly()) + SlotData(raw, k, now)
  {
    hide *;
    CostlyDistinct();
    if k in Costly() {
      DataUpdated(raw, f, k, now, Costly());
    } else {
      DataUnchanged(raw, f, k, now, Costly());
      CostlyData(raw, k, Get(f, k));
      CostlyData(raw, k, now);
    }
  }

  /** No keyword appears twice among the first `i` members. */
  predicate NoRepeats(ms: seq<Member>, i: nat)
    requires i <= |ms|
  {
    forall a, b :: 0 <= a < b < i && KwOf(ms[a]) == KwOf(ms[b]) ==> KwOf(ms[a]) == KUnknown
  }

  predicate PlainUpTo(ms: seq<Member>, i: nat)
    requires i <= |ms|
  {
    forall a :: 0 <= a < i ==> PlainMember(KwOf(ms[a]), ms[a].val)
  }

  /** A keyword not seen yet has nothing gathered. */
  lemma {:induction false} UnseenEmpty(env: Env, ms: seq<Member>, i: nat, k: Kw)
    requires i <= |ms| && forall a :: 0 <= a < i ==> KwOf(ms[a]) != k || k == KUnknown
    ensures Get(FieldsUpTo(env, ms, i), k) == Empty
  {
    hide *;
    NoFields(env, ms, k);
    if i > 0 {
      var j := KwOf(ms[i - 1]);
      var f := FieldsUpTo(env, ms, i - 1);
      UnseenEmpty(env, ms, i - 1, k);
      FieldsStep(env, ms, i - 1);
      GetUpdated(f, j, Update(env, Get(f, j), j, PosOf(ms, i - 1) + 1, ms[i - 1].val), k);
      UpdateUnknown(env, Empty, PosOf(ms, i - 1) + 1, ms[i - 1].val);
    }
  }

  lemma NoFields(env: Env, ms: seq<Member>, k: Kw)
    ensures Get(FieldsUpTo(env, ms, 0), k) == Empty
  {
    hide KwOf;
    hide Update;
  }

  ghost predicate DataSoFar(raw: bool, f: Fields, ms: seq<Member>, i: nat)
    requires i <= |ms|
  {
    var sum := SumData(raw, f, Costly());
    && sum <= ReserveUpTo(ms, i)
    && (NoRepeats(ms, i) ==> (sum == ReserveUpTo(ms, i) <==> raw || PlainUpTo(ms, i)))
  }

  lemma {:induction false} NoData(raw: bool, ks: seq<Kw>)
    ensures SumData(raw, map[], ks) == 0
  {
    if ks != [] {
      NoData(raw, ks[1..]);
    }
  }

  lemma DataNothing(raw: bool, env: Env, ms: seq<Member>)
    ensures DataSoFar(raw, FieldsUpTo(env, ms, 0), ms, 0)
  {
    hide Costly;
    hide KwOf;
    hide PlainMember;
    NoData(raw, Costly());
  }

  lemma {:induction false} DataFields(raw: bool, env: Env, ms: seq<Member>, i: nat)
    requires i <= |ms| && forall a :: 0 <= a < |ms| ==> WfTree(ms[a].val)
    ensures DataSoFar(raw, FieldsUpTo(env, ms, i), ms, i)
  {
    hide *;
    if i == 0 {
      DataNothing(raw, env, ms);
    } else {
      var f := FieldsUpTo(env, ms, i - 1);
      var k := KwOf(ms[i - 1]);
      DataFields(raw, env, ms, i - 1);
      FieldsUpToFit(env, ms, i - 1);
      FieldsStep(env, ms, i - 1);
      var rel := PosOf(ms, i - 1) + 1;
      GetFits(f, k);
      UpdateFits(env, Get(f, k), k, rel, ms[i - 1].val);
      UpdateData(env, raw, Get(f, k), k, rel, ms[i - 1].val);
      SumDataStep(raw, f, k, Update(env, Get(f, k), k, rel, ms[i - 1].val));
      if NoRepeats(ms, i) {
        NoRepeatsSplit(ms, i - 1);
        UnseenEmpty(env, ms, i - 1, k);
      }
      DataAdvance(raw, env, ms, i - 1, f, k, Get(f, k), rel);
    }
  }

  lemma NoRepeatsSplit(ms: seq<Member>, i: nat)
    requires i < |ms| && NoRepeats(ms, i + 1)
    ensures NoRepeats(ms, i)
    ensures forall a :: 0 <= a < i ==> KwOf(ms[a]) != KwOf(ms[i]) || KwOf(ms[i]) == KUnknown
  {
    hide KwOf;
  }

  lemma DataAdvance(raw: bool, env: Env, ms: seq<Member>, i: nat, f: Fields, k: Kw, prev: Slot, rel: nat)
    requires i < |ms| && k == KwOf(ms[i]) && DataSoFar(raw, f, ms, i)
    requires DataStep(env, raw, prev, k, rel, ms[i].val)
    requires NoRepeats(ms, i + 1) ==> NoRepeats(ms, i) && prev == Empty
    requires SumData(raw, f[k := Update(env, prev, k, rel, ms[i].val)], Costly()) + SlotData(raw, k, prev)
          == SumData(raw, f, Costly()) + SlotData(raw, k, Update(env, prev, k, rel, ms[i].val))
    ensures DataSoFar(raw, f[k := Update(env, prev, k, rel, ms[i].val)], ms, i + 1)
  {
    hide KwOf;
    hide SumData;
    hide Costly;
    hide Update;
    hide Reserve;
    hide PlainMember;
    hide NoRepeats;
  }

  // ---------------------------------------------------------------- the whole tree

  /** The length of the strings in one node's block. */
  function NodeData(env: Env, t: Tree): nat {
    |DataAll(NodeInstrs(env, t))|
  }

  lemma InstrData(f: Fields, k: Kw)
    requires SlotFits(k, Get(f, k)) && Rank(k) < 24
    ensures |DataAll(InstrOf(f, k))| == SlotData(false, k, Get(f, k))
  {
    hide *;
    InstrDataOne(f, k);
    EmptySize([], 0, 0);
    if InstrOf(f, k) != [] {
      EncOne([], 0, InstrOf(f, k)[0], 0);
      assert InstrOf(f, k) == [InstrOf(f, k)[0]];
    }
  }

  lemma InstrDataOne(f: Fields, k: Kw)
    requires SlotFits(k, Get(f, k)) && Rank(k) < 24
    ensures InstrOf(f, k) == [] ==> SlotData(false, k, Get(f, k)) == 0
    ensures InstrOf(f, k) != [] ==> |InstrOf(f, k)| == 1 && |DataOf(InstrOf(f, k)[0])| == SlotData(false, k, Get(f, k))
  {
    hide IsObject;
    hide IsTrue;
    hide Get;
    hide RefIn;
    hide Text;
    hide NamesData;
    hide NamesOf;
    hide RulesData;
    hide ItemsText;
    hide KeysText;
    var s := Get(f, k);
    if s.Many? && s.last.sub.Arr? {
      NamesLen(s.last.sub.items);
    }
  }

  lemma {:induction false} FirstData(f: Fields, ks: seq<Kw>)
    requires FieldsFit(f) && forall i :: 0 <= i < |ks| ==> Rank(ks[i]) < 24
    ensures |DataAll(InstrsOf(f, ks))| == SumData(false, f, ks)
  {
    hide InstrOf;
    hide SlotData;
    hide FieldsFit;
    hide DataAll;
    hide Rank;
    if ks == [] {
      EmptySize([], 0, 0);
    } else {
      GetFits(f, ks[0]);
      InstrData(f, ks[0]);
      EncAllAppend([], 0, InstrOf(f, ks[0]), InstrsOf(f, ks[1..]), 0);
      FirstData(f, ks[1..]);
    }
  }

  lemma PropsDataOne(f: Fields)
    requires SlotFits(KProperties, Get(f, KProperties)) && SlotFits(KPatternProperties, Get(f, KPatternProperties))
    ensures !HasProps(f) ==> SlotData(false, KProperties, Get(f, KProperties)) == 0 && SlotData(false, KPatternProperties, Get(f, KPatternProperties)) == 0
    ensures HasProps(f) ==>
            && |InstrOf(f, KProperties)| == 1
            && |DataOf(InstrOf(f, KProperties)[0])|
               == SlotData(false, KProperties, Get(f, KProperties)) + SlotData(false, KPatternProperties, Get(f, KPatternProperties))
  {
    hide Get;
    hide AddRuleOf;
    hide IsTrue;
    hide ValidSub;
    hide RulesOf;
    hide RulesData;
    hide NamesData;
    hide NamesOf;
    hide ItemsText;
    hide KeysText;
    hide Text;
    EmptyRulesData();
    SlotRules(KProperties, Get(f, KProperties));
    SlotRules(KPatternProperties, Get(f, KPatternProperties));
  }

  lemma SlotRules(k: Kw, s: Slot)
    requires IsPropsKw(k) && SlotFits(k, s)
    ensures |RulesData(RulesIn(s))| == SlotData(false, k, s)
  {
    hide RulesData;
    hide RulesOf;
    hide KeysText;
    hide IsTrue;
    hide ValidSub;
    EmptyRulesData();
    if s.Many? && s.last.sub.Obj? {
      RulesLen(s.last.rel + 1, s.last.sub.members);
    }
  }

  lemma EmptyRulesData()
    ensures RulesData([]) == []
  {
  }

  lemma PropsData(f: Fields)
    requires FieldsFit(f)
    ensures |DataAll(InstrOf(f, KProperties))|
         == SlotData(false, KProperties, Get(f, KProperties)) + SlotData(false, KPatternProperties, Get(f, KPatternProperties))
  {
    hide *;
    GetFits(f, KProperties);
    GetFits(f, KPatternProperties);
    PropsDataOne(f);
    PropsInstrSize(f);
    EmptySize([], 0, 0);
    if HasProps(f) {
      EncOne([], 0, InstrOf(f, KProperties)[0], 0);
      assert InstrOf(f, KProperties) == [InstrOf(f, KProperties)[0]];
    }
  }

  lemma {:induction false} SumDataAppend(raw: bool, f: Fields, ks: seq<Kw>, js: seq<Kw>)
    ensures SumData(raw, f, ks + js) == SumData(raw, f, ks) + SumData(raw, f, js)
  {
    hide SlotData;
    if ks == [] {
      assert ks + js == js;
    } else {
      SumDataAppend(raw, f, ks[1..], js);
      assert (ks + js)[1..] == ks[1..] + js;
    }
  }

  lemma SumDataLast(raw: bool, f: Fields)
    ensures SumData(raw, f, Costly())
         == SumData(raw, f, EmitFirst()) + SlotData(raw, KProperties, Get(f, KProperties)) + SlotData(raw, KPatternProperties, Get(f, KPatternProperties))
  {
    hide SlotData;
    hide EmitFirst;
    SumDataAppend(raw, f, EmitFirst(), [KProperties, KPatternProperties]);
    var last := [KProperties, KPatternProperties];
    assert last[1..] == [KPatternProperties];
    assert [KPatternProperties][1..] == [];
    assert SumData(raw, f, last) == SlotData(raw, KProperties, Get(f, KProperties)) + SumData(raw, f, last[1..]);
    assert SumData(raw, f, []) == 0;
  }

  lemma AllInstrsData(f: Fields)
    requires FieldsFit(f)
    ensures |DataAll(InstrsOf(f, EmitOrder()))| == SumData(false, f, Costly())
  {
    hide *;
    var first := InstrsOf(f, EmitFirst());
    OrderSplit();
    forall i | 0 <= i < |EmitFirst()| ensures Rank(EmitFirst()[i]) < 24 {
      FirstKws(EmitFirst()[i]);
    }
    InstrsAppend(f, EmitFirst(), KProperties);
    EncAllAppend([], 0, first, InstrOf(f, KProperties), 0);
    FirstData(f, EmitFirst());
    PropsData(f);
    SumDataLast(false, f);
  }

  predicate CleanNode(t: Tree) {
    IsObject(t) ==>
      NoRepeats(t.members, |t.members|)
      && forall i :: 0 <= i < |t.members| ==> !EmptyRequired(t.members[i])
  }

  predicate PlainNode(t: Tree) {
    IsObject(t) ==> PlainUpTo(t.members, |t.members|)
  }

  lemma ObjectData(env: Env, t: Tree)
    requires WfTree(t) && IsObject(t)
    ensures DataSoFar(false, Collected(env, t), t.members, |t.members|)
    ensures NodeData(env, t) == SumData(false, Collected(env, t), Costly())
  {
    hide WfTree;
    hide DataSoFar;
    hide SumData;
    hide DataAll;
    hide InstrsOf;
    hide Costly;
    hide EmitOrder;
    hide FieldsUpTo;
    forall i | 0 <= i < |t.members| ensures WfTree(t.members[i].val) {
      WfMembers(t, i);
    }
    DataFields(false, env, t.members, |t.members|);
    FieldsUpToFit(env, t.members, |t.members|);
    AllInstrsData(Collected(env, t));
  }

  lemma NodeDataFits(env: Env, t: Tree)
    requires WfTree(t)
    ensures NodeData(env, t) <= NodeReserve(t)
    ensures CleanNode(t) ==> (NodeData(env, t) == NodeReserve(t) <==> PlainNode(t))
  {
    hide SumData;
    hide InstrsOf;
    hide Costly;
    hide EmitOrder;
    hide Collected;
    hide ReserveUpTo;
    hide NoRepeats;
    hide PlainUpTo;
    hide DataAll;
    hide WfTree;
    if IsObject(t) {
      ObjectData(env, t);
    } else {
      EmptySize([], 0, 0);
    }
  }

  /** Constant-pool bytes pass 1 reserves for a schema, and pass 2 writes. */
  function Data1(t: Tree): nat
    decreases Len(t), |Visits(t)| + 1
  {
    NodeReserve(t) + Data1UpTo(t, |Visits(t)|)
  }

  function Data1UpTo(t: Tree, k: nat): nat
    requires k <= |Visits(t)|
    decreases Len(t), k
  {
    if k == 0 then 0 else Data1UpTo(t, k - 1) + Data1(Visit(t, k - 1).sub)
  }

  function Data2(env: Env, t: Tree): nat
    decreases Len(t), |Visits(t)| + 1
  {
    NodeData(env, t) + Data2UpTo(env, t, |Visits(t)|)
  }

  function Data2UpTo(env: Env, t: Tree, k: nat): nat
    requires k <= |Visits(t)|
    decreases Len(t), k
  {
    if k == 0 then 0 else Data2UpTo(env, t, k - 1) + Data2(env, Visit(t, k - 1).sub)
  }

  /** No visited schema object repeats a keyword or has an empty `required`. */
  predicate Clean(t: Tree)
    decreases Len(t), |Visits(t)| + 1
  {
    CleanNode(t) && CleanVisits(t, |Visits(t)|)
  }

  predicate CleanVisits(t: Tree, k: nat)
    requires k <= |Visits(t)|
    decreases Len(t), k
  {
    k == 0 || (CleanVisits(t, k - 1) && Clean(Visit(t, k - 1).sub))
  }

  predicate PlainTree(t: Tree)
    decreases Len(t), |Visits(t)| + 1
  {
    PlainNode(t) && PlainVisits(t, |Visits(t)|)
  }

  predicate PlainVisits(t: Tree, k: nat)
    requires k <= |Visits(t)|
    decreases Len(t), k
  {
    k == 0 || (PlainVisits(t, k - 1) && PlainTree(Visit(t, k - 1).sub))
  }

  // Visited subschemas inherit well-formed tokens.

  lemma {:induction false} WfEntryVisits(pos: nat, items: seq<Tree>, k: nat)
    requires forall i :: 0 <= i < |items| ==> WfTree(items[i])
    requires k < |EntryVisits(pos, items)|
    ensures WfTree(EntryVisits(pos, items)[k].sub)
    decreases items
  {
    hide WfTree;
    hide Len;
    hide ValidSub;
    var n := if ValidSub(items[0]) then 1 else 0;
    if k >= n {
      WfEntryVisits(pos + Len(items[0]), items[1..], k - n);
    }
  }

  lemma {:induction false} WfValueVisits(pos: nat, ms: seq<Member>, k: nat)
    requires forall i :: 0 <= i < |ms| ==> WfTree(ms[i].val)
    requires k < |ValueVisits(pos, ms)|
    ensures WfTree(ValueVisits(pos, ms)[k].sub)
    decreases ms
  {
    hide WfTree;
    hide Len;
    if k > 0 {
      WfValueVisits(pos + 1 + Len(ms[0].val), ms[1..], k - 1);
    }
  }

  lemma WfMemberVisits(pos: nat, m: Member, hasIf: bool, k: nat)
    requires WfTree(m.val) && k < |MemberVisits(pos, m, hasIf)|
    ensures WfTree(MemberVisits(pos, m, hasIf)[k].sub)
  {
    MemberVisitsForm(pos, m, hasIf);
    hide MemberVisits;
    hide WfToken;
    hide KwOf;
    if m.val.Arr? && MemberVisits(pos, m, hasIf) == EntryVisits(pos + 2, m.val.items) {
      WfEntryVisits(pos + 2, m.val.items, k);
    } else if m.val.Obj? && MemberVisits(pos, m, hasIf) == ValueVisits(pos + 2, m.val.members) {
      forall i | 0 <= i < |m.val.members| ensures WfTree(m.val.members[i].val) {
        WfMembers(m.val, i);
      }
      WfValueVisits(pos + 2, m.val.members, k);
    }
  }

  lemma {:induction false} WfVisitsFrom(pos: nat, ms: seq<Member>, hasIf: bool, k: nat)
    requires forall i :: 0 <= i < |ms| ==> WfTree(ms[i].val)
    requires k < |VisitsFrom(pos, ms, hasIf)|
    ensures WfTree(VisitsFrom(pos, ms, hasIf)[k].sub)
    decreases ms
  {
    hide WfTree;
    hide Len;
    hide MemberVisits;
    var n := |MemberVisits(pos, ms[0], hasIf)|;
    if k < n {
      WfMemberVisits(pos, ms[0], hasIf, k);
    } else {
      WfVisitsFrom(pos + 1 + Len(ms[0].val), ms[1..], hasIf, k - n);
    }
  }

  lemma WfVisit(t: Tree, k: nat)
    requires WfTree(t) && k < |Visits(t)|
    ensures WfTree(Visit(t, k).sub)
  {
    hide WfTree;
    hide VisitsFrom;
    hide HasIf;
    forall i | 0 <= i < |t.members| ensures WfTree(t.members[i].val) {
      WfMembers(t, i);
    }
    WfVisitsFrom(1, t.members, HasIf(t.members), k);
  }

  /** Pass 2 stays inside the pool pass 1 reserved; for a clean schema it fills it exactly
      when no string it stores was escaped. */
  lemma {:induction false} PoolFits(env: Env, t: Tree)
    requires WfTree(t)
    ensures Data2(env, t) <= Data1(t)
    ensures Clean(t) ==> (Data2(env, t) == Data1(t) <==> PlainTree(t))
    decreases Len(t), |Visits(t)| + 1
  {
    hide NodeData;
    hide NodeReserve;
    hide CleanNode;
    hide PlainNode;
    hide Visits;
    hide WfTree;
    NodeDataFits(env, t);
    PoolFitsVisits(env, t, |Visits(t)|);
  }

  lemma {:induction false} PoolFitsVisits(env: Env, t: Tree, k: nat)
    requires k <= |Visits(t)| && WfTree(t)
    ensures Data2UpTo(env, t, k) <= Data1UpTo(t, k)
    ensures CleanVisits(t, k) ==> (Data2UpTo(env, t, k) == Data1UpTo(t, k) <==> PlainVisits(t, k))
    decreases Len(t), k
  {
    hide Visits;
    hide Data1;
    hide Data2;
    hide Clean;
    hide PlainTree;
    hide Visit;
    hide WfTree;
    if k > 0 {
      PoolFitsVisits(env, t, k - 1);
      WfVisit(t, k - 1);
      PoolFits(env, Visit(t, k - 1).sub);
    }
  }

  // ---------------------------------------------------------------- clean schemas are exact

  lemma CleanNodeExact(t: Tree)
    requires CleanNode(t)
    ensures ExactNode(t)
  {
    hide KwOf;
    hide TakesOver;
    hide EmptyRequired;
    if IsObject(t) {
      forall b, a | 0 <= a < b < |t.members| ensures !Clash(t.members[a], t.members[b]) {
        UnknownFree(t.members[a].val);
        hide Cost;
      }
    }
  }

  lemma UnknownFree(v: Tree)
    ensures Cost(KUnknown, v) == 0
  {
  }

  lemma {:induction false} CleanExact(t: Tree)
    requires Clean(t)
    ensures Exact(t)
    decreases Len(t), |Visits(t)| + 1
  {
    hide CleanNode;
    hide ExactNode;
    hide Visits;
    CleanNodeExact(t);
    CleanVisitsExact(t, |Visits(t)|);
  }

  lemma {:induction false} CleanVisitsExact(t: Tree, k: nat)
    requires k <= |Visits(t)| && CleanVisits(t, k)
    ensures ExactVisits(t, k)
    decreases Len(t), k
  {
    hide Visits;
    hide Clean;
    hide Exact;
    hide Visit;
    if k > 0 {
      CleanVisitsExact(t, k - 1);
      CleanExact(Visit(t, k - 1).sub);
    }
  }
}
