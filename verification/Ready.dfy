/** Every reference in a placed block leads somewhere: to the block of a visited subschema,
    or nowhere for what is no schema. */
module Ready {
  import opened Bytes
  import opened Ast
  import opened Keywords
  import opened Semantics
  import opened Layout
  import opened Code
  import opened Sizes
  import opened Agreement
  import opened PoolSizes
  import opened Walk
  import opened Cover
  import opened Placement
  import opened Emission
  import opened NodeEmission
  import opened Compiler
  import opened Meaning
  import opened Equality
  import opened Truth
  import opened PropsTruth
  import opened NodeTruth
  import opened Running

  /** The block of `s` stands in the file being run. */
  ghost predicate Standing(c: Ctx, s: Tree) {
    && FileOk(c.file, c.constants)
    && Placed(c.env, c.file[..c.constants], c.file[c.constants..], c.offs, c.at, s)
    && Exact(s)
    && c.bound == Len(s)
  }

  lemma StandingMeans(c: Ctx, s: Tree)
    requires Standing(c, s)
    ensures FileOk(c.file, c.constants) && c.constants <= |c.file| && Exact(s) && c.bound == Len(s)
    ensures Placed(c.env, c.file[..c.constants], c.file[c.constants..], c.offs, c.at, s)
  {
    hide Header;
    hide Here;
    hide Placed;
    hide Exact;
    hide Len;
  }

  lemma ExactVisited(t: Tree, n: nat, k: nat)
    requires k < n <= |Visits(t)| && ExactVisits(t, n)
    ensures Exact(Visit(t, k).sub)
    decreases n
  {
    hide Visits;
    hide Exact;
    hide Visit;
    if k < n - 1 {
      ExactVisited(t, n - 1, k);
    }
  }

  lemma PlacedParts(env: Env, code: bytes, pool: bytes, offs: seq<nat>, at: nat, t: Tree)
    requires Placed(env, code, pool, offs, at, t)
    ensures at < |offs| && SkipsUnset(offs, at, t) && PlacedVisits(env, code, pool, offs, at, t, |Visits(t)|)
    ensures BlockAt(env, code, pool, offs, at, t)
  {
    hide Visits;
    hide SkipsUnset;
    hide PlacedVisits;
    hide BlockAt;
  }

  lemma VisitNumber(t: Tree, r: Ref) returns (k: nat)
    requires r in Visits(t)
    ensures k < |Visits(t)| && Visit(t, k) == r
  {
    hide Visits;
    k :| 0 <= k < |Visits(t)| && Visits(t)[k] == r;
  }

  lemma MakeReached(env: Env, file: bytes, constants: nat, offs: seq<nat>, at: nat, s: Tree, offset: uint32)
    requires constants <= |file| && Placed(env, file[..constants], file[constants..], offs, at, s)
    requires at < |offs| && offset == offs[at] && Exact(s)
    ensures Reached(env, file, constants, offs, at, s, offset)
  {
    hide Placed;
    hide Exact;
  }

  lemma MakeUnreached(env: Env, file: bytes, constants: nat, offs: seq<nat>, at: nat, s: Tree, offset: uint32)
    requires constants <= |file| && !ValidSub(s) && offset == NO_OFFSET
    ensures Reached(env, file, constants, offs, at, s, offset)
  {
    hide Placed;
    hide Exact;
    hide ValidSub;
  }

  lemma MakeReady(c: Ctx, r: Ref)
    requires Len(r.sub) < c.bound && Reached(c.env, c.file, c.constants, c.offs, c.at + r.rel, r.sub, Offset(c.offs, c.at, r))
    ensures RefReady(c, r)
  {
    hide Reached;
    hide Len;
    hide Offset;
  }

  /** A visited subschema can be run. */
  lemma VisitedReady(c: Ctx, s: Tree, r: Ref)
    requires Standing(c, s) && r in Visits(s)
    ensures RefReady(c, r)
  {
    hide *;
    StandingMeans(c, s);
    var k := VisitNumber(s, r);
    ExactMeans(s);
    ExactVisited(s, |Visits(s)|, k);
    var code, pool := c.file[..c.constants], c.file[c.constants..];
    PlacedParts(c.env, code, pool, c.offs, c.at, s);
    PlacedVisit(c.env, code, pool, c.offs, c.at, s, |Visits(s)|, k);
    PlacedInside(c.env, code, pool, c.offs, c.at + r.rel, r.sub);
    FileSmall(c.file, c.constants);
    OffsetIs(c.offs, c.at, r);
    WrapSmall(c.offs[c.at + r.rel]);
    MakeReached(c.env, c.file, c.constants, c.offs, c.at + r.rel, r.sub, Offset(c.offs, c.at, r));
    MakeReady(c, r);
  }

  lemma WrapSmall(n: nat)
    ensures n < 0x8000_0000 ==> Wrap32(n) == n
    ensures Wrap32(0xFFFF_FFFF) == 0xFFFF_FFFF
  {
  }

  /** What is no schema and has no offset need not be run. */
  lemma SkippedReady(c: Ctx, r: Ref)
    requires FileOk(c.file, c.constants) && !ValidSub(r.sub) && Len(r.sub) < c.bound && Unset(c.offs, c.at + r.rel)
    ensures RefReady(c, r)
  {
    hide *;
    UnsetOffset(c.offs, c.at, r);
    FileBounds(c.file, c.constants);
    MakeUnreached(c.env, c.file, c.constants, c.offs, c.at + r.rel, r.sub, Offset(c.offs, c.at, r));
    MakeReady(c, r);
  }

  lemma UnsetOffset(offs: seq<nat>, at: nat, r: Ref)
    requires Unset(offs, at + r.rel)
    ensures Offset(offs, at, r) == NO_OFFSET
  {
  }

  lemma FileBounds(file: bytes, constants: nat)
    requires FileOk(file, constants)
    ensures constants <= |file|
  {
    hide Header;
    hide Here;
  }

  // ---------------------------------------------------------------- keyword by keyword

  ghost predicate AllReady(c: Ctx, ins: seq<Instr>) {
    forall j :: 0 <= j < |ins| ==> InstrReady(c, ins[j])
  }

  lemma AllReadyAppend(c: Ctx, a: seq<Instr>, b: seq<Instr>)
    requires AllReady(c, a) && AllReady(c, b)
    ensures AllReady(c, a + b)
  {
    hide InstrReady;
  }

  lemma AllReadyOne(c: Ctx, i: Instr)
    ensures InstrReady(c, i) ==> AllReady(c, [i])
    ensures AllReady(c, [])
  {
    hide InstrReady;
  }

  lemma {:induction false} AllReadyKeywords(c: Ctx, f: Fields, ks: seq<Kw>)
    requires forall k :: k in ks ==> AllReady(c, InstrOf(f, k))
    ensures AllReady(c, InstrsOf(f, ks))
  {
    hide InstrOf;
    hide AllReady;
    if ks == [] {
      AllReadyOne(c, UniqueI);
    } else {
      AllReadyKeywords(c, f, ks[1..]);
      AllReadyAppend(c, InstrOf(f, ks[0]), InstrsOf(f, ks[1..]));
    }
  }

  lemma PlainReady(c: Ctx, s: Tree, f: Fields, k: Kw, i: nat)
    requires s.Obj? && f == FieldsUpTo(c.env, s.members, |s.members|) && i < |s.members|
    requires Effective(c.env, s.members, k, i) && IsPlainKw(k)
    ensures AllReady(c, InstrOf(f, k))
  {
    hide *;
    PlainKws(k);
    EffectiveMeans(c.env, s.members, k, i);
    PlainUpdates(c.env, k, PosOf(s.members, i) + 1, s.members[i].val);
    InstrCases(f, k, Get(f, k));
    AllReadyOne(c, UniqueI);
    if InstrOf(f, k) != [] {
      var ins := InstrOf(f, k)[0];
      assert InstrOf(f, k) == [ins];
      AllReadyOne(c, ins);
      ReadyForms(c, ins);
    }
  }

  lemma ReadyForms(c: Ctx, i: Instr)
    ensures i.TypeI? || i.UniqueI? ==> InstrReady(c, i)
    ensures i.NumI? ==> InstrReady(c, i) == IsNumKw(i.k)
    ensures i.CountI? ==> InstrReady(c, i) == IsIntKw(i.k)
    ensures i.StrI? ==> InstrReady(c, i) == IsStrKw(i.k)
    ensures i.SubI? ==> InstrReady(c, i) == (IsSubKw(i.k) && i.k != KIf && RefReady(c, i.ref))
    ensures i.ManyI? ==> InstrReady(c, i) == (IsManyKw(i.k) && i.count == |i.refs| && RefsReady(c, i.refs))
    ensures i.IfI? ==> InstrReady(c, i) == (RefReady(c, i.cond) && OptReady(c, i.thn) && OptReady(c, i.els))
    ensures i.RequiredI? ==> InstrReady(c, i) == (i.count == |i.names|)
    ensures i.PropsI? ==>
              InstrReady(c, i)
              == (i.propCount == |i.props| && i.patCount == |i.pats| && RulesReady(c, i.props) && RulesReady(c, i.pats) && AddReady(c, i.add))
  {
    hide RefReady;
    hide OptReady;
    hide RulesReady;
    hide AddReady;
    hide IsNumKw;
    hide IsIntKw;
    hide IsStrKw;
    hide IsSubKw;
    hide IsManyKw;
  }

  // ---------------------------------------------------------------- one subschema

  lemma SubVisited(s: Tree, i: nat, hasIf: bool)
    requires IsObject(s) && s.Obj? && i < |s.members| && hasIf == HasIf(s.members)
    requires IsSubKw(KwOf(s.members[i])) || (IsBranchKw(KwOf(s.members[i])) && hasIf)
    requires ValidSub(s.members[i].val)
    ensures Ref(PosOf(s.members, i) + 1, s.members[i].val) in Visits(s)
  {
    hide *;
    SubVisits(PosOf(s.members, i), s.members[i], hasIf);
    InVisits(s, i, Ref(PosOf(s.members, i) + 1, s.members[i].val));
  }

  lemma SubVisits(pos: nat, m: Member, hasIf: bool)
    requires IsSubKw(KwOf(m)) || (IsBranchKw(KwOf(m)) && hasIf)
    requires ValidSub(m.val)
    ensures MemberVisits(pos, m, hasIf) == [Ref(pos + 1, m.val)]
  {
    hide KwOf;
    hide ValidSub;
    hide EntryVisits;
    hide ValueVisits;
  }

  lemma OneReady(c: Ctx, s: Tree, f: Fields, k: Kw, i: nat)
    requires Standing(c, s) && IsObject(s) && s.Obj? && f == FieldsUpTo(c.env, s.members, |s.members|) && i < |s.members|
    requires Effective(c.env, s.members, k, i) && IsOneKw(k)
    ensures AllReady(c, InstrOf(f, k))
  {
    hide *;
    var v := s.members[i].val;
    OneKws(k);
    EffectiveMeans(c.env, s.members, k, i);
    SubUpdates(c.env, k, PosOf(s.members, i) + 1, v);
    InstrCases(f, k, Get(f, k));
    AllReadyOne(c, UniqueI);
    if ValidSub(v) {
      var r := Ref(PosOf(s.members, i) + 1, v);
      SubVisited(s, i, HasIf(s.members));
      VisitedReady(c, s, r);
      ReadyForms(c, SubI(k, r));
      AllReadyOne(c, SubI(k, r));
    }
  }

  // ---------------------------------------------------------------- allOf, anyOf, oneOf

  lemma EntryUnset(offs: seq<nat>, at: nat, s: Tree, i: nat, j: nat)
    requires SkipsUnset(offs, at, s) && IsObject(s) && s.Obj? && i < |s.members|
    requires IsManyKw(KwOf(s.members[i])) && IsArray(s.members[i].val) && s.members[i].val.Arr?
    requires j < |s.members[i].val.items| && !ValidSub(s.members[i].val.items[j])
    ensures Unset(offs, at + EntryPos(PosOf(s.members, i) + 2, s.members[i].val.items, j))
  {
    hide Unset;
    hide EntryPos;
    hide PosOf;
    hide KwOf;
    hide ValidSub;
    assert EntriesUnset(offs, at, PosOf(s.members, i) + 2, s.members[i].val.items);
  }

  lemma EntryReady(c: Ctx, s: Tree, i: nat, j: nat)
    requires Standing(c, s) && IsObject(s) && s.Obj? && i < |s.members|
    requires IsManyKw(KwOf(s.members[i])) && IsArray(s.members[i].val) && s.members[i].val.Arr?
    requires j < |s.members[i].val.items|
    ensures RefReady(c, EntryRefs(PosOf(s.members, i) + 2, s.members[i].val.items)[j])
  {
    hide *;
    var m := s.members[i];
    var p := PosOf(s.members, i);
    var r := Ref(EntryPos(p + 2, m.val.items, j), m.val.items[j]);
    StandingMeans(c, s);
    EntryRefAt(p + 2, m.val.items, j);
    if ValidSub(m.val.items[j]) {
      ManyVisits(p, m, HasIf(s.members));
      InEntryVisits(p + 2, m.val.items, j);
      InVisits(s, i, r);
      VisitedReady(c, s, r);
    } else {
      PlacedParts(c.env, c.file[..c.constants], c.file[c.constants..], c.offs, c.at, s);
      EntryUnset(c.offs, c.at, s, i, j);
      Smaller(s, i);
      Smaller(m.val, j);
      SkippedReady(c, r);
    }
  }

  lemma ManyReady(c: Ctx, s: Tree, f: Fields, k: Kw, i: nat)
    requires Standing(c, s) && IsObject(s) && s.Obj? && f == FieldsUpTo(c.env, s.members, |s.members|) && i < |s.members|
    requires Effective(c.env, s.members, k, i) && IsManyKw(k)
    ensures AllReady(c, InstrOf(f, k))
  {
    hide *;
    var v := s.members[i].val;
    var p := PosOf(s.members, i);
    ManyKws(k);
    EffectiveMeans(c.env, s.members, k, i);
    ManyUpdates(c.env, k, p + 1, v);
    InstrCases(f, k, Get(f, k));
    AllReadyOne(c, UniqueI);
    if IsArray(v) {
      var refs := EntryRefs(p + 2, v.items);
      forall j | 0 <= j < |refs| ensures RefReady(c, refs[j]) {
        EntryReady(c, s, i, j);
      }
      MakeRefsReady(c, refs);
      ReadyForms(c, ManyI(k, |v.items|, refs));
      AllReadyOne(c, ManyI(k, |v.items|, refs));
    }
  }

  lemma MakeRefsReady(c: Ctx, refs: seq<Ref>)
    requires forall j :: 0 <= j < |refs| ==> RefReady(c, refs[j])
    ensures RefsReady(c, refs)
  {
    hide RefReady;
  }

  lemma RequiredReady(c: Ctx, s: Tree, f: Fields, i: nat)
    requires s.Obj? && f == FieldsUpTo(c.env, s.members, |s.members|) && i < |s.members|
    requires Effective(c.env, s.members, KRequired, i)
    ensures AllReady(c, InstrOf(f, KRequired))
  {
    hide *;
    var v := s.members[i].val;
    EffectiveMeans(c.env, s.members, KRequired, i);
    ManyUpdates(c.env, KRequired, PosOf(s.members, i) + 1, v);
    InstrCases(f, KRequired, Get(f, KRequired));
    AllReadyOne(c, UniqueI);
    if IsArray(v) {
      ReadyForms(c, RequiredI(|v.items|, NamesOf(v.items)));
      AllReadyOne(c, RequiredI(|v.items|, NamesOf(v.items)));
    }
  }

  // ---------------------------------------------------------------- if, then, else

  lemma {:induction false} LookupName(raw: bytes, table: seq<Kw>)
    requires LookupIn(raw, table) == KIf
    ensures Spells(raw, Name(KIf))
  {
    hide Spells;
    hide Name;
    if table != [] && !Spells(raw, Name(table[0])) {
      LookupName(raw, table[1..]);
    }
  }

  lemma IfNamed(m: Member)
    requires KwOf(m) == KIf
    ensures TokenSpells(m.key, "if")
  {
    hide LookupIn;
    hide Spells;
    hide KeywordTable;
    LookupName(m.key.raw, KeywordTable());
  }

  lemma HasIfThere(ms: seq<Member>, i: nat)
    requires i < |ms| && KwOf(ms[i]) == KIf
    ensures HasIf(ms)
  {
    hide KwOf;
    hide TokenSpells;
    IfNamed(ms[i]);
  }

  lemma BranchReady(c: Ctx, s: Tree, f: Fields, branch: Kw, j: nat)
    requires Standing(c, s) && IsObject(s) && s.Obj? && f == FieldsUpTo(c.env, s.members, |s.members|)
    requires Effective(c.env, s.members, branch, j) && IsBranchKw(branch) && HasIf(s.members)
    ensures OptReady(c, RefIn(Get(f, branch)))
  {
    hide *;
    EffectiveMeans(c.env, s.members, branch, j);
    RefInCases(Get(f, branch));
    MakeOptReady(c, RefIn(Get(f, branch)));
    if j < |s.members| {
      var v := s.members[j].val;
      SubUpdates(c.env, branch, PosOf(s.members, j) + 1, v);
      if ValidSub(v) {
        SubVisited(s, j, true);
        VisitedReady(c, s, Ref(PosOf(s.members, j) + 1, v));
      }
    }
  }

  lemma RefInCases(slot: Slot)
    ensures slot.Empty? ==> RefIn(slot) == None
    ensures slot.Sub? ==> RefIn(slot) == Some(slot.ref)
  {
  }

  lemma MakeOptReady(c: Ctx, r: Option<Ref>)
    ensures (r.Some? ==> RefReady(c, r.value)) ==> OptReady(c, r)
  {
    hide RefReady;
  }

  lemma IfReady(c: Ctx, s: Tree, f: Fields, i: nat)
    requires Standing(c, s) && IsObject(s) && s.Obj? && f == FieldsUpTo(c.env, s.members, |s.members|) && i < |s.members|
    requires Effective(c.env, s.members, KIf, i) && ExactUpTo(s.members, |s.members|)
    ensures AllReady(c, InstrOf(f, KIf))
  {
    hide *;
    var v := s.members[i].val;
    var r := Ref(PosOf(s.members, i) + 1, v);
    BranchKws();
    EffectiveMeans(c.env, s.members, KIf, i);
    SubUpdates(c.env, KIf, PosOf(s.members, i) + 1, v);
    IfInstr(f);
    AllReadyOne(c, UniqueI);
    if ValidSub(v) {
      HasIfThere(s.members, i);
      SubVisited(s, i, true);
      VisitedReady(c, s, r);
      var t := FindMember(c.env, s.members, KThen);
      var e := FindMember(c.env, s.members, KElse);
      BranchReady(c, s, f, KThen, t);
      BranchReady(c, s, f, KElse, e);
      var ins := IfI(r, RefIn(Get(f, KThen)), RefIn(Get(f, KElse)));
      ReadyForms(c, ins);
      AllReadyOne(c, ins);
    }
  }

  // ---------------------------------------------------------------- properties

  lemma PropsVisits(p: nat, m: Member, hasIf: bool)
    requires IsPropsKw(KwOf(m)) && IsObject(m.val)
    ensures m.val.Obj? && MemberVisits(p, m, hasIf) == ValueVisits(p + 2, m.val.members)
  {
    hide KwOf;
    hide ValueVisits;
  }

  lemma AddVisits(p: nat, m: Member, hasIf: bool)
    requires KwOf(m) == KAdditionalProperties && (IsObject(m.val) || IsTrue(m.val))
    ensures MemberVisits(p, m, hasIf) == [Ref(p + 1, m.val)]
  {
    hide KwOf;
  }

  lemma RuleReady(c: Ctx, s: Tree, i: nat, j: nat)
    requires Standing(c, s) && IsObject(s) && s.Obj? && i < |s.members|
    requires IsPropsKw(KwOf(s.members[i])) && IsObject(s.members[i].val) && s.members[i].val.Obj?
    requires j < |s.members[i].val.members|
    ensures RefReady(c, RulesOf(PosOf(s.members, i) + 2, s.members[i].val.members)[j].ref)
  {
    hide *;
    var m := s.members[i];
    var p := PosOf(s.members, i);
    var r := Ref(MemberPos(p + 2, m.val.members, j) + 1, m.val.members[j].val);
    RuleAt(p + 2, m.val.members, j);
    PropsVisits(p, m, HasIf(s.members));
    InValueVisits(p + 2, m.val.members, j);
    InVisits(s, i, r);
    VisitedReady(c, s, r);
  }

  lemma ManyRulesAre(rel: nat, v: Tree)
    requires v.Obj?
    ensures RulesIn(Many(Ref(rel, v), |v.members|)) == RulesOf(rel + 1, v.members)
    ensures CountIn(Many(Ref(rel, v), |v.members|)) == |v.members|
    ensures RulesIn(Empty) == [] && CountIn(Empty) == 0
  {
    hide Text;
  }

  lemma SlotRulesReady(c: Ctx, s: Tree, f: Fields, k: Kw, i: nat)
    requires Standing(c, s) && IsObject(s) && s.Obj? && f == FieldsUpTo(c.env, s.members, |s.members|)
    requires Effective(c.env, s.members, k, i) && IsPropsKw(k)
    ensures RulesReady(c, RulesIn(Get(f, k))) && |RulesIn(Get(f, k))| == CountIn(Get(f, k))
  {
    hide *;
    EffectiveMeans(c.env, s.members, k, i);
    EmptyRulesAre(c);
    if i < |s.members| {
      var v := s.members[i].val;
      var p := PosOf(s.members, i);
      PropsUpdates(c.env, k, p + 1, v);
      if IsObject(v) {
        ManyRulesAre(p + 1, v);
        var rules := RulesOf(p + 2, v.members);
        forall j | 0 <= j < |rules| ensures RefReady(c, rules[j].ref) {
          RuleReady(c, s, i, j);
        }
        MakeRulesReady(c, rules);
      }
    }
  }

  lemma EmptyRulesAre(c: Ctx)
    ensures RulesIn(Empty) == [] && CountIn(Empty) == 0 && RulesReady(c, [])
  {
  }

  lemma MakeRulesReady(c: Ctx, rules: seq<Rule>)
    requires forall j :: 0 <= j < |rules| ==> RefReady(c, rules[j].ref)
    ensures RulesReady(c, rules)
  {
    hide RefReady;
  }

  lemma AddOf(c: Ctx, rel: nat, v: Tree)
    requires IsObject(v) || IsTrue(v) ==> RefReady(c, Ref(rel, v))
    ensures AddReady(c, AddRuleOf(Sub(Ref(rel, v))))
    ensures AddReady(c, AddRuleOf(Empty))
  {
    hide RefReady;
  }

  lemma AdditionalReady(c: Ctx, s: Tree, f: Fields, a: nat)
    requires Standing(c, s) && IsObject(s) && s.Obj? && f == FieldsUpTo(c.env, s.members, |s.members|)
    requires Effective(c.env, s.members, KAdditionalProperties, a)
    ensures AddReady(c, AddRuleOf(Get(f, KAdditionalProperties)))
  {
    hide *;
    EffectiveMeans(c.env, s.members, KAdditionalProperties, a);
    if a < |s.members| {
      var v := s.members[a].val;
      var p := PosOf(s.members, a);
      AdditionalUpdates(c.env, p + 1, v);
      if IsObject(v) || IsTrue(v) {
        AddVisits(p, s.members[a], HasIf(s.members));
        InVisits(s, a, Ref(p + 1, v));
        VisitedReady(c, s, Ref(p + 1, v));
      }
      AddOf(c, p + 1, v);
    } else {
      NoAddOf(c);
    }
  }

  lemma NoAddOf(c: Ctx)
    ensures AddReady(c, AddRuleOf(Empty))
  {
  }

  lemma PropsReady(c: Ctx, s: Tree, f: Fields)
    requires Standing(c, s) && IsObject(s) && s.Obj? && f == FieldsUpTo(c.env, s.members, |s.members|)
    requires ExactUpTo(s.members, |s.members|)
    ensures AllReady(c, InstrOf(f, KProperties))
  {
    hide *;
    PropsNames();
    var p := FindMember(c.env, s.members, KProperties);
    var q := FindMember(c.env, s.members, KPatternProperties);
    var a := FindMember(c.env, s.members, KAdditionalProperties);
    SlotRulesReady(c, s, f, KProperties, p);
    SlotRulesReady(c, s, f, KPatternProperties, q);
    AdditionalReady(c, s, f, a);
    PropsInstr(f);
    AllReadyOne(c, UniqueI);
    if HasProps(f) {
      var ins := PropsI(CountIn(Get(f, KProperties)), CountIn(Get(f, KPatternProperties)), AddRuleOf(Get(f, KAdditionalProperties)),
                        RulesIn(Get(f, KProperties)), RulesIn(Get(f, KPatternProperties)));
      ReadyForms(c, ins);
      AllReadyOne(c, ins);
    }
  }

  // ---------------------------------------------------------------- the whole node

  lemma AbsentReady(c: Ctx, s: Tree, f: Fields, k: Kw)
    requires s.Obj? && f == FieldsUpTo(c.env, s.members, |s.members|) && Effective(c.env, s.members, k, |s.members|) && Rank(k) < 24
    ensures AllReady(c, InstrOf(f, k))
  {
    hide *;
    Classes(k);
    AllReadyOne(c, UniqueI);
    EffectiveMeans(c.env, s.members, k, |s.members|);
    if k == KIf {
      IfInstr(f);
    } else {
      NotProps(k);
      InstrCases(f, k, Get(f, k));
    }
  }

  lemma KeywordReady(c: Ctx, s: Tree, f: Fields, k: Kw)
    requires Standing(c, s) && IsObject(s) && s.Obj? && f == FieldsUpTo(c.env, s.members, |s.members|)
    requires ExactUpTo(s.members, |s.members|) && k in EmitOrder()
    ensures AllReady(c, InstrOf(f, k))
  {
    hide *;
    InOrder(k);
    if k == KProperties {
      PropsReady(c, s, f);
    } else {
      Classes(k);
      var i := FindMember(c.env, s.members, k);
      EffectiveMeans(c.env, s.members, k, i);
      if i >= |s.members| {
        AbsentReady(c, s, f, k);
      } else if IsPlainKw(k) {
        PlainReady(c, s, f, k, i);
      } else if IsOneKw(k) {
        OneReady(c, s, f, k, i);
      } else if IsManyKw(k) {
        ManyReady(c, s, f, k, i);
      } else if k == KRequired {
        RequiredReady(c, s, f, i);
      } else {
        IfReady(c, s, f, i);
      }
    }
  }

  /** Everything compiled for a standing node can be run. */
  lemma NodeReady(c: Ctx, s: Tree)
    requires Standing(c, s)
    ensures AllReady(c, NodeInstrs(c.env, s))
  {
    hide *;
    NodeForms(c.env, [], 0, s, 0);
    AllReadyOne(c, UniqueI);
    if IsObject(s) {
      StandingMeans(c, s);
      ExactMeans(s);
      ExactObject(s);
      var f := FieldsUpTo(c.env, s.members, |s.members|);
      forall k | k in EmitOrder() ensures AllReady(c, InstrOf(f, k)) {
        KeywordReady(c, s, f, k);
      }
      AllReadyKeywords(c, f, EmitOrder());
    }
  }
}
