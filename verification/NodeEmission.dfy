/** Pass 2 for one schema node: every keyword in its place, within the space pass 1 left
    (src/validation/schema.c, `serialize_schema_direct`). */
module NodeEmission {
  import opened Bytes
  import opened Ast
  import opened Keywords
  import opened Semantics
  import opened Layout
  import opened Code
  import opened Sizes
  import opened Agreement
  import opened PoolSizes
  import opened Walk
  import opened Writer
  import opened Pass2
  import opened Emission

  /** What the gathering loop leaves behind. */
  ghost predicate Gathered(pool: seq<Node>, at: nat, f: Fields, hs: HeldFields) {
    && Holds(hs, at, f)
    && FieldsFit(f)
    && forall k :: SlotOk(pool, at, Get(f, k))
  }

  lemma GatheredAt(pool: seq<Node>, at: nat, f: Fields, hs: HeldFields, k: Kw)
    requires Gathered(pool, at, f, hs)
    ensures GetH(hs, k) == HeldOf(at, Get(f, k)) && SlotOk(pool, at, Get(f, k)) && SlotFits(k, Get(f, k))
  {
    hide SlotOk;
    hide SlotFits;
    hide HeldOf;
    hide Get;
    hide GetH;
    GetFits(f, k);
    HoldsAt(hs, at, f, k);
  }

  /** The space a node needs, and has. */
  ghost predicate Roomy(w: CodeWriter, c0: bytes, p0: bytes, f: Fields) {
    && |c0| + SumSlots(f, Costly()) + (if HasProps(f) then 13 else 0) + 1 <= w.poolStart
    && w.poolStart + |p0| + SumData(true, f, Costly()) <= w.buf.Length
  }

  /** The first `i` keywords have been emitted. */
  ghost predicate Progress(w: CodeWriter, c0: bytes, p0: bytes, offs: seq<nat>, at: nat, f: Fields, i: nat)
    reads w, w.buf
  {
    && w.Valid()
    && i <= 24
    && Emitted(c0, p0, w.Written(), w.Pool(), offs, at, InstrsOf(f, EmitFirst()[..i]))
  }

  lemma Cursors(w: CodeWriter)
    requires w.Valid()
    ensures |w.Written()| == w.code && w.poolStart + |w.Pool()| == w.data
  {
  }

  lemma {:induction false} DecodedFits(pool: seq<Node>, at: nat, f: Fields, hs: HeldFields, ks: seq<Kw>)
    requires Gathered(pool, at, f, hs)
    ensures SumData(false, f, ks) <= SumData(true, f, ks)
  {
    hide Gathered;
    hide SlotData;
    if ks != [] {
      DecodedFits(pool, at, f, hs, ks[1..]);
      SlotDecodedFits(pool, at, f, hs, ks[0]);
    }
  }

  lemma SlotDecodedFits(pool: seq<Node>, at: nat, f: Fields, hs: HeldFields, k: Kw)
    requires Gathered(pool, at, f, hs)
    ensures SlotData(false, k, Get(f, k)) <= SlotData(true, k, Get(f, k))
  {
    hide *;
    GatheredAt(pool, at, f, hs, k);
    var s := Get(f, k);
    SlotOkMeans(pool, at, s);
    SlotDataCases(false, k, s);
    SlotDataCases(true, k, s);
    if s.Str? {
      StrLenFits(false, s.tok);
      StrLenFits(true, s.tok);
    } else if s.Many? && s.last.sub.Arr? {
      WfItems(s.last.sub);
      ItemsTextFits(false, s.last.sub.items);
      ItemsTextFits(true, s.last.sub.items);
    } else if s.Many? && s.last.sub.Obj? {
      WfKeys(s.last.sub);
      KeysTextFits(false, s.last.sub.members);
      KeysTextFits(true, s.last.sub.members);
    }
  }

  lemma WfItems(t: Tree)
    requires WfTree(t) && t.Arr?
    ensures forall i :: 0 <= i < |t.items| ==> WfTree(t.items[i])
  {
    hide WfToken;
  }

  lemma WfKeys(t: Tree)
    requires WfTree(t) && t.Obj?
    ensures forall i :: 0 <= i < |t.members| ==> WfToken(t.members[i].key)
  {
    hide WfToken;
  }

  lemma SlotDataCases(raw: bool, k: Kw, s: Slot)
    ensures SlotData(raw, k, s)
         == if s.Str? then StrLen(raw, s.tok)
            else if !s.Many? || s.count == 0 then 0
            else if k == KRequired && s.last.sub.Arr? then ItemsText(raw, s.last.sub.items)
            else if IsPropsKw(k) && s.last.sub.Obj? then KeysText(raw, s.last.sub.members)
            else 0
  {
    hide StrLen;
    hide ItemsText;
    hide KeysText;
  }

  lemma PrefixSum(f: Fields, i: nat)
    requires i < 24
    ensures |EmitFirst()| == 24
    ensures SumSlots(f, EmitFirst()[..i]) + SlotSize(EmitFirst()[i], Get(f, EmitFirst()[i])) <= SumSlots(f, EmitFirst())
    ensures SumData(true, f, EmitFirst()[..i]) + SlotData(true, EmitFirst()[i], Get(f, EmitFirst()[i])) <= SumData(true, f, EmitFirst())
  {
    FirstCount();
    hide *;
    SplitSum(f, EmitFirst(), i);
  }

  lemma FirstCount()
    ensures |EmitFirst()| == 24
  {
  }

  lemma SplitSum(f: Fields, ks: seq<Kw>, i: nat)
    requires i < |ks|
    ensures SumSlots(f, ks[..i]) + SlotSize(ks[i], Get(f, ks[i])) <= SumSlots(f, ks)
    ensures SumData(true, f, ks[..i]) + SlotData(true, ks[i], Get(f, ks[i])) <= SumData(true, f, ks)
  {
    hide SlotSize;
    hide SlotData;
    assert ks == ks[..i] + ks[i..];
    SumAppend(f, ks[..i], ks[i..]);
    SumDataAppend(true, f, ks[..i], ks[i..]);
  }

  /** How far the cursors are after `i` keywords. */
  lemma CursorsAfter(w: CodeWriter, pool: seq<Node>, hs: HeldFields, c0: bytes, p0: bytes, offs: seq<nat>, at: nat, f: Fields, i: nat)
    requires Progress(w, c0, p0, offs, at, f, i) && Gathered(pool, at, f, hs)
    ensures w.Valid() && |EmitFirst()| == 24 && i <= 24
    ensures w.code == |c0| + SumSlots(f, EmitFirst()[..i])
    ensures w.data <= w.poolStart + |p0| + SumData(true, f, EmitFirst()[..i])
  {
    FirstCount();
    hide EmitFirst;
    hide Emitted;
    hide Gathered;
    hide SumSlots;
    hide SumData;
    hide EncAll;
    hide InstrsOf;
    hide DataAll;
    hide Rank;
    hide FieldsFit;
    Cursors(w);
    var ks := EmitFirst()[..i];
    EmittedLens(c0, p0, w.Written(), w.Pool(), offs, at, f, ks, pool, hs);
  }

  lemma EmittedLens(c0: bytes, p0: bytes, c1: bytes, p1: bytes, offs: seq<nat>, at: nat, f: Fields, ks: seq<Kw>, pool: seq<Node>, hs: HeldFields)
    requires Emitted(c0, p0, c1, p1, offs, at, InstrsOf(f, ks)) && Gathered(pool, at, f, hs)
    requires forall j :: 0 <= j < |ks| ==> ks[j] in EmitFirst()
    ensures |c1| == |c0| + SumSlots(f, ks)
    ensures |p1| <= |p0| + SumData(true, f, ks)
  {
    hide *;
    forall j | 0 <= j < |ks| ensures Rank(ks[j]) < 24 {
      FirstKws(ks[j]);
    }
    GatheredFits(pool, at, f, hs);
    FirstSize(offs, at, f, ks, |p0|);
    FirstData(f, ks);
    DecodedFits(pool, at, f, hs, ks);
    EmittedMeans(c0, p0, c1, p1, offs, at, InstrsOf(f, ks));
  }

  lemma GatheredFits(pool: seq<Node>, at: nat, f: Fields, hs: HeldFields)
    requires Gathered(pool, at, f, hs)
    ensures FieldsFit(f)
  {
    hide FieldsFit;
    hide SlotOk;
    hide Holds;
  }

  lemma EmittedMeans(c0: bytes, p0: bytes, c1: bytes, p1: bytes, offs: seq<nat>, at: nat, ins: seq<Instr>)
    requires Emitted(c0, p0, c1, p1, offs, at, ins)
    ensures c1 == c0 + EncAll(offs, at, ins, |p0|) && p1 == p0 + DataAll(ins)
  {
    hide EncAll;
    hide DataAll;
  }

  lemma RoomNext(w: CodeWriter, pool: seq<Node>, hs: HeldFields, c0: bytes, p0: bytes, offs: seq<nat>, at: nat, f: Fields, i: nat, k: Kw)
    requires Progress(w, c0, p0, offs, at, f, i) && Gathered(pool, at, f, hs) && Roomy(w, c0, p0, f)
    requires i < |EmitFirst()| && EmitFirst()[i] == k
    ensures w.Valid() && w.code + SlotSize(k, Get(f, k)) <= w.poolStart
    ensures w.data + SlotData(true, k, Get(f, k)) <= w.buf.Length
  {
    FirstCount();
    hide *;
    CursorsAfter(w, pool, hs, c0, p0, offs, at, f, i);
    PrefixSum(f, i);
    SumLast(f);
    SumDataLast(true, f);
    RoomyMeans(w, c0, p0, f);
  }

  lemma RoomyMeans(w: CodeWriter, c0: bytes, p0: bytes, f: Fields)
    requires Roomy(w, c0, p0, f)
    ensures |c0| + SumSlots(f, Costly()) + (if HasProps(f) then 13 else 0) + 1 <= w.poolStart
    ensures w.poolStart + |p0| + SumData(true, f, Costly()) <= w.buf.Length
  {
    hide SumSlots;
    hide SumData;
    hide Costly;
    hide HasProps;
  }

  lemma ProgressStep(w: CodeWriter, c0: bytes, p0: bytes, c1: bytes, p1: bytes, offs: seq<nat>, at: nat, f: Fields, i: nat, k: Kw)
    requires i < |EmitFirst()| && EmitFirst()[i] == k && w.Valid()
    requires Emitted(c0, p0, c1, p1, offs, at, InstrsOf(f, EmitFirst()[..i]))
    requires Emitted(c1, p1, w.Written(), w.Pool(), offs, at, InstrOf(f, k))
    ensures Progress(w, c0, p0, offs, at, f, i + 1)
  {
    FirstCount();
    hide EmitFirst;
    hide Emitted;
    hide InstrsOf;
    hide InstrOf;
    assert EmitFirst()[..i + 1] == EmitFirst()[..i] + [k];
    InstrsAppend(f, EmitFirst()[..i], k);
    EmittedThen(c0, p0, c1, p1, w.Written(), w.Pool(), offs, at, InstrsOf(f, EmitFirst()[..i]), InstrOf(f, k));
  }

  lemma ProgressMeans(w: CodeWriter, c0: bytes, p0: bytes, offs: seq<nat>, at: nat, f: Fields, i: nat)
    requires Progress(w, c0, p0, offs, at, f, i)
    ensures w.Valid() && i <= 24 == |EmitFirst()|
    ensures Emitted(c0, p0, w.Written(), w.Pool(), offs, at, InstrsOf(f, EmitFirst()[..i]))
  {
    FirstCount();
    hide Emitted;
    hide InstrsOf;
    hide EmitFirst;
  }

  method EmitKeyword(w: CodeWriter, pool: seq<Node>, offs: seq<nat>, hs: HeldFields, k: Kw,
                     ghost c0: bytes, ghost p0: bytes, ghost at: nat, ghost f: Fields, ghost i: nat)
    requires Gathered(pool, at, f, hs) && |offs| == |pool| && Roomy(w, c0, p0, f)
    requires i < |EmitFirst()| && EmitFirst()[i] == k && Progress(w, c0, p0, offs, at, f, i)
    modifies w, w.buf
    ensures Progress(w, c0, p0, offs, at, f, i + 1)
  {
    hide *;
    ProgressMeans(w, c0, p0, offs, at, f, i);
    RoomNext(w, pool, hs, c0, p0, offs, at, f, i, k);
    GatheredAt(pool, at, f, hs, k);
    FirstKws(k);
    RankOthers();
    ghost var c1, p1 := w.Written(), w.Pool();
    if k == KIf {
      GatheredAt(pool, at, f, hs, KThen);
      GatheredAt(pool, at, f, hs, KElse);
      EmitIfHeld(w, pool, offs, GetH(hs, KIf), GetH(hs, KThen), GetH(hs, KElse), at, f, Get(f, KIf));
    } else {
      EmitHeld(w, pool, offs, k, GetH(hs, k), at, f, Get(f, k));
    }
    ProgressStep(w, c0, p0, c1, p1, offs, at, f, i, k);
  }

  lemma RankOthers()
    ensures Rank(KProperties) == 24
  {
  }

  lemma FirstFour()
    ensures |EmitFirst()| == 24
    ensures EmitFirst()[0] == KType && EmitFirst()[1] == KMinimum && EmitFirst()[2] == KMaximum
    ensures EmitFirst()[3] == KMultipleOf
  {
  }

  lemma SecondFive()
    ensures |EmitFirst()| == 24
    ensures EmitFirst()[4] == KExclusiveMinimum && EmitFirst()[5] == KExclusiveMaximum
    ensures EmitFirst()[6] == KPattern && EmitFirst()[7] == KMinProperties && EmitFirst()[8] == KMaxProperties
  {
  }

  lemma NextFive()
    ensures |EmitFirst()| == 24
    ensures EmitFirst()[9] == KUniqueItems && EmitFirst()[10] == KMinLength && EmitFirst()[11] == KMaxLength
    ensures EmitFirst()[12] == KMinItems && EmitFirst()[13] == KMaxItems
  {
  }

  lemma LastTen()
    ensures |EmitFirst()| == 24
    ensures EmitFirst()[14] == KItems && EmitFirst()[15] == KContains && EmitFirst()[16] == KNot
    ensures EmitFirst()[17] == KAllOf && EmitFirst()[18] == KAnyOf && EmitFirst()[19] == KOneOf && EmitFirst()[20] == KIf
    ensures EmitFirst()[21] == KPropertyNames && EmitFirst()[22] == KFormat && EmitFirst()[23] == KRequired
  {
  }

  method EmitValueKeywords(w: CodeWriter, pool: seq<Node>, offs: seq<nat>, hs: HeldFields,
                           ghost c0: bytes, ghost p0: bytes, ghost at: nat, ghost f: Fields)
    requires Gathered(pool, at, f, hs) && |offs| == |pool| && Roomy(w, c0, p0, f) && Progress(w, c0, p0, offs, at, f, 0)
    modifies w, w.buf
    ensures Progress(w, c0, p0, offs, at, f, 14)
  {
    hide *;
    FirstFour();
    SecondFive();
    NextFive();
    EmitKeyword(w, pool, offs, hs, KType, c0, p0, at, f, 0);
    EmitKeyword(w, pool, offs, hs, KMinimum, c0, p0, at, f, 1);
    EmitKeyword(w, pool, offs, hs, KMaximum, c0, p0, at, f, 2);
    EmitKeyword(w, pool, offs, hs, KMultipleOf, c0, p0, at, f, 3);
    EmitKeyword(w, pool, offs, hs, KExclusiveMinimum, c0, p0, at, f, 4);
    EmitKeyword(w, pool, offs, hs, KExclusiveMaximum, c0, p0, at, f, 5);
    EmitKeyword(w, pool, offs, hs, KPattern, c0, p0, at, f, 6);
    EmitKeyword(w, pool, offs, hs, KMinProperties, c0, p0, at, f, 7);
    EmitKeyword(w, pool, offs, hs, KMaxProperties, c0, p0, at, f, 8);
    EmitKeyword(w, pool, offs, hs, KUniqueItems, c0, p0, at, f, 9);
    EmitKeyword(w, pool, offs, hs, KMinLength, c0, p0, at, f, 10);
    EmitKeyword(w, pool, offs, hs, KMaxLength, c0, p0, at, f, 11);
    EmitKeyword(w, pool, offs, hs, KMinItems, c0, p0, at, f, 12);
    EmitKeyword(w, pool, offs, hs, KMaxItems, c0, p0, at, f, 13);
  }

  method EmitOtherKeywords(w: CodeWriter, pool: seq<Node>, offs: seq<nat>, hs: HeldFields,
                           ghost c0: bytes, ghost p0: bytes, ghost at: nat, ghost f: Fields)
    requires Gathered(pool, at, f, hs) && |offs| == |pool| && Roomy(w, c0, p0, f) && Progress(w, c0, p0, offs, at, f, 14)
    modifies w, w.buf
    ensures Progress(w, c0, p0, offs, at, f, 24)
  {
    hide *;
    LastTen();
    EmitKeyword(w, pool, offs, hs, KItems, c0, p0, at, f, 14);
    EmitKeyword(w, pool, offs, hs, KContains, c0, p0, at, f, 15);
    EmitKeyword(w, pool, offs, hs, KNot, c0, p0, at, f, 16);
    EmitKeyword(w, pool, offs, hs, KAllOf, c0, p0, at, f, 17);
    EmitKeyword(w, pool, offs, hs, KAnyOf, c0, p0, at, f, 18);
    EmitKeyword(w, pool, offs, hs, KOneOf, c0, p0, at, f, 19);
    EmitKeyword(w, pool, offs, hs, KIf, c0, p0, at, f, 20);
    EmitKeyword(w, pool, offs, hs, KPropertyNames, c0, p0, at, f, 21);
    EmitKeyword(w, pool, offs, hs, KFormat, c0, p0, at, f, 22);
    EmitKeyword(w, pool, offs, hs, KRequired, c0, p0, at, f, 23);
  }

  lemma RoomLast(w: CodeWriter, pool: seq<Node>, hs: HeldFields, c0: bytes, p0: bytes, offs: seq<nat>, at: nat, f: Fields)
    requires Progress(w, c0, p0, offs, at, f, 24) && Gathered(pool, at, f, hs) && Roomy(w, c0, p0, f)
    ensures w.Valid()
    ensures w.code + (if HasProps(f) then 13 else 0) + SlotSize(KProperties, Get(f, KProperties))
            + SlotSize(KPatternProperties, Get(f, KPatternProperties)) + 1 <= w.poolStart
    ensures w.data + SlotData(true, KProperties, Get(f, KProperties))
            + SlotData(true, KPatternProperties, Get(f, KPatternProperties)) <= w.buf.Length
  {
    hide *;
    CursorsAfter(w, pool, hs, c0, p0, offs, at, f, 24);
    assert EmitFirst()[..24] == EmitFirst();
    SumLast(f);
    SumDataLast(true, f);
    RoomyMeans(w, c0, p0, f);
  }

  /** All instructions of a schema object. */
  method EmitAllKeywords(w: CodeWriter, pool: seq<Node>, offs: seq<nat>, hs: HeldFields, ghost at: nat, ghost f: Fields)
    requires Gathered(pool, at, f, hs) && |offs| == |pool| && w.Valid() && Roomy(w, w.Written(), w.Pool(), f)
    modifies w, w.buf
    ensures w.Valid() && w.code < w.poolStart
    ensures Emitted(old(w.Written()), old(w.Pool()), w.Written(), w.Pool(), offs, at, InstrsOf(f, EmitOrder()))
  {
    hide *;
    ghost var c0, p0 := w.Written(), w.Pool();
    ProgressStart(w, offs, at, f);
    EmitValueKeywords(w, pool, offs, hs, c0, p0, at, f);
    EmitOtherKeywords(w, pool, offs, hs, c0, p0, at, f);
    RoomLast(w, pool, hs, c0, p0, offs, at, f);
    ProgressMeans(w, c0, p0, offs, at, f, 24);
    assert EmitFirst()[..24] == EmitFirst();
    GatheredAt(pool, at, f, hs, KProperties);
    GatheredAt(pool, at, f, hs, KPatternProperties);
    GatheredAt(pool, at, f, hs, KAdditionalProperties);
    ghost var c1, p1 := w.Written(), w.Pool();
    EmitProps(w, pool, offs, GetH(hs, KProperties), GetH(hs, KPatternProperties), GetH(hs, KAdditionalProperties),
              at, f, Get(f, KProperties), Get(f, KPatternProperties), Get(f, KAdditionalProperties));
    OrderSplit();
    InstrsAppend(f, EmitFirst(), KProperties);
    EmittedThen(c0, p0, c1, p1, w.Written(), w.Pool(), offs, at, InstrsOf(f, EmitFirst()), InstrOf(f, KProperties));
    AllEmitted(w, pool, hs, c0, p0, offs, at, f);
  }

  lemma ProgressStart(w: CodeWriter, offs: seq<nat>, at: nat, f: Fields)
    requires w.Valid()
    ensures Progress(w, w.Written(), w.Pool(), offs, at, f, 0)
  {
    hide Emitted;
    hide EmitFirst;
    EmittedNone(w.Written(), w.Pool(), offs, at);
    assert EmitFirst()[..0] == [];
  }

  lemma AllEmitted(w: CodeWriter, pool: seq<Node>, hs: HeldFields, c0: bytes, p0: bytes, offs: seq<nat>, at: nat, f: Fields)
    requires w.Valid() && Gathered(pool, at, f, hs) && Roomy(w, c0, p0, f)
    requires Emitted(c0, p0, w.Written(), w.Pool(), offs, at, InstrsOf(f, EmitOrder()))
    ensures w.code < w.poolStart
  {
    hide *;
    Cursors(w);
    EmittedMeans(c0, p0, w.Written(), w.Pool(), offs, at, InstrsOf(f, EmitOrder()));
    GatheredFits(pool, at, f, hs);
    AllInstrsSize(offs, at, f, |p0|);
    RoomyMeans(w, c0, p0, f);
  }

  // ---------------------------------------------------------------- one node

  lemma ObjectRoom(env: Env, t: Tree, w: CodeWriter)
    requires WfTree(t) && IsObject(t) && w.Valid()
    requires w.code + NodeSize(t) <= w.poolStart && w.data + NodeReserve(t) <= w.buf.Length
    ensures Roomy(w, w.Written(), w.Pool(), FieldsUpTo(env, t.members, |t.members|))
  {
    hide WfTree;
    hide SumSlots;
    hide SumData;
    hide Costly;
    hide HasProps;
    hide FieldsUpTo;
    hide NodeSize;
    hide ReserveUpTo;
    hide NoRepeats;
    hide PlainUpTo;
    Cursors(w);
    NodeAgrees(env, t);
    forall i | 0 <= i < |t.members| ensures WfTree(t.members[i].val) {
      WfMembers(t, i);
    }
    DataFields(true, env, t.members, |t.members|);
  }

  lemma GatheredNow(env: Env, pool: seq<Node>, at: nat, t: Tree, hs: HeldFields)
    requires At(pool, at, t) && WfTree(t) && t.Obj?
    requires Holds(hs, at, FieldsUpTo(env, t.members, |t.members|))
    ensures Gathered(pool, at, FieldsUpTo(env, t.members, |t.members|), hs)
  {
    hide At;
    hide WfTree;
    hide Holds;
    hide FieldsUpTo;
    hide FieldsFit;
    hide SlotOk;
    hide Get;
    var f := FieldsUpTo(env, t.members, |t.members|);
    FieldsUpToFit(env, t.members, |t.members|);
    forall k ensures SlotOk(pool, at, Get(f, k)) {
      FieldsOk(env, pool, at, t, |t.members|, k);
    }
  }

  lemma NodeForms(env: Env, offs: seq<nat>, at: nat, t: Tree, d: nat)
    ensures IsObject(t) ==>
              t.Obj? && NodeInstrs(env, t) == InstrsOf(FieldsUpTo(env, t.members, |t.members|), EmitOrder())
              && EncNode(env, offs, at, t, d) == EncAll(offs, at, NodeInstrs(env, t), d) + [OP_END]
    ensures !IsObject(t) ==> NodeInstrs(env, t) == [] && DataAll(NodeInstrs(env, t)) == []
    ensures !IsObject(t) ==> EncNode(env, offs, at, t, d) == if IsFalse(t) then [OP_FAIL] else [OP_END]
    ensures IsTrue(t) ==> !IsFalse(t) && !IsObject(t)
    ensures IsFalse(t) ==> !IsObject(t)
  {
    hide InstrsOf;
    hide EmitOrder;
    hide FieldsUpTo;
    if !IsObject(t) {
      EmptySize(offs, at, d);
    }
  }

  /** The block of one schema node. */
  method EmitNode(env: Env, pool: seq<Node>, w: CodeWriter, offs: seq<nat>, at: nat, ghost t: Tree)
    requires At(pool, at, t) && WfTree(t) && |offs| == |pool| && w.Valid()
    requires w.code + NodeSize(t) <= w.poolStart && w.data + NodeReserve(t) <= w.buf.Length
    modifies w, w.buf
    ensures w.Valid()
    ensures w.Written() == old(w.Written()) + EncNode(env, offs, at, t, |old(w.Pool())|)
    ensures w.Pool() == old(w.Pool()) + DataAll(NodeInstrs(env, t))
  {
    hide *;
    AtBound(pool, at, t);
    NodeFacts(pool, at, t);
    ghost var c0, p0 := w.Written(), w.Pool();
    NodeForms(env, offs, at, t, |p0|);
    assert p0 + [] == p0;
    if NodeFalse(pool[at]) {
      w.EmitByte(OP_FAIL);
      return;
    }
    if NodeTrue(pool[at]) || pool[at].kind != AstObject {
      w.EmitByte(OP_END);
      return;
    }
    ghost var f := FieldsUpTo(env, t.members, |t.members|);
    ObjectRoom(env, t, w);
    var hs := CollectFields(env, pool, at, t);
    GatheredNow(env, pool, at, t, hs);
    EmitAllKeywords(w, pool, offs, hs, at, f);
    EmittedMeans(c0, p0, w.Written(), w.Pool(), offs, at, NodeInstrs(env, t));
    Regroup(c0, EncAll(offs, at, NodeInstrs(env, t), |p0|), [OP_END]);
    w.EmitByte(OP_END);
  }
}
