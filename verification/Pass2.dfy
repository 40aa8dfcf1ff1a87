/** Pass 2 of the schema compiler: `serialize_schema_direct` (src/validation/schema.c). */
module Pass2 {
  import opened Bytes
  import opened Ast
  import opened Keywords
  import opened Semantics
  import opened Layout
  import opened Code
  import opened Sizes
  import opened Agreement
  import opened PoolSizes
  import opened Walk
  import opened Cover

  // ---------------------------------------------------------------- gathering

  /** A gathered field as the compiler holds it: pool node indices instead of trees. */
  datatype Held =
    | NoneH
    | TypesH(types: set<SchemaType>)
    | NumH(bits: Bits)
    | IntH(n: int32)
    | FlagH(on: bool)
    | StrH(tok: Token)
    | SubH(node: nat)
    | ManyH(node: nat, count: nat)

  function HeldOf(at: nat, s: Slot): Held {
    match s
    case Empty => NoneH
    case Types(types) => TypesH(types)
    case Num(bits) => NumH(bits)
    case Int(n) => IntH(n)
    case Flag(on) => FlagH(on)
    case Str(tok) => StrH(tok)
    case Sub(ref) => SubH(at + ref.rel)
    case Many(last, count) => ManyH(at + last.rel, count)
  }

  type HeldFields = map<Kw, Held>

  function GetH(hs: HeldFields, k: Kw): Held {
    if k in hs then hs[k] else NoneH
  }

  ghost predicate Holds(hs: HeldFields, at: nat, f: Fields) {
    forall k :: GetH(hs, k) == HeldOf(at, Get(f, k))
  }

  /** The loop over the entries of a `type` array. */
  method CollectTypes(pool: seq<Node>, at: nat, ghost v: Tree) returns (types: set<SchemaType>)
    requires At(pool, at, v) && v.Arr?
    ensures types == TypesNamed(v.items)
  {
    hide *;
    AtBound(pool, at, v);
    FirstItem(pool, at, v);
    ItemCursorEnd(pool, at, v.items, 0, pool[at].firstChild);
    TypesEnds(v.items);
    types := {};
    ghost var i := 0;
    var c := pool[at].firstChild;
    while c != -1
      invariant i <= |v.items| && ItemCursor(pool, at, v.items, i, c)
      invariant c == -1 <==> i == |v.items|
      invariant types + TypesNamed(v.items[i..]) == TypesNamed(v.items)
      decreases |v.items| - i
    {
      ItemStep(pool, at, v.items, i, c);
      NodeFacts(pool, c, v.items[i]);
      TypesStep(v.items, i);
      types := types + TypeNamed(pool[c].tok);
      c := pool[c].nextSibling;
      i := i + 1;
      ItemCursorEnd(pool, at, v.items, i, c);
    }
  }

  lemma TypesStep(items: seq<Tree>, i: nat)
    requires i < |items|
    ensures TypesNamed(items[i..]) == TypeNamed(TokenOf(items[i])) + TypesNamed(items[i + 1..])
  {
    hide TypeNamed;
    assert items[i..][0] == items[i] && items[i..][1..] == items[i + 1..];
  }

  lemma TypesEnds(items: seq<Tree>)
    ensures items[0..] == items && TypesNamed(items[|items|..]) == {}
  {
  }

  lemma TypeSetIs(v: Tree)
    ensures IsStr(v) ==> TypeSet(v) == TypeNamed(TokenOf(v))
    ensures IsArray(v) ==> v.Arr? && TypeSet(v) == TypesNamed(v.items)
    ensures !IsStr(v) && !IsArray(v) ==> TypeSet(v) == {}
    ensures !(IsStr(v) && IsArray(v))
  {
    hide TypeNamed;
    hide TypesNamed;
  }

  function HeldTypes(h: Held): set<SchemaType> {
    if h.TypesH? then h.types else {}
  }

  function HeldCount(h: Held): nat {
    if h.ManyH? then h.count else 0
  }

  method UpdateType(pool: seq<Node>, val: nat, prev: Held, ghost v: Tree) returns (h: Held)
    requires At(pool, val, v)
    ensures h == TypesH(if IsStr(v) then TypeSet(v) else HeldTypes(prev) + TypeSet(v))
  {
    hide *;
    NodeFacts(pool, val, v);
    TypeSetIs(v);
    if NodeStr(pool[val]) {
      h := TypesH(TypeNamed(pool[val].tok));
    } else if pool[val].kind == AstArray {
      var types := CollectTypes(pool, val, v);
      h := TypesH(HeldTypes(prev) + types);
    } else {
      h := TypesH(HeldTypes(prev));
    }
  }

  /** The cases of the collecting switch. */
  method UpdateHeld(env: Env, pool: seq<Node>, key: nat, k: Kw, prev: Held,
                    ghost v: Tree, ghost at: nat, ghost rel: nat, ghost was: Slot) returns (h: Held)
    requires key + 1 < |pool| && At(pool, key + 1, v) && key + 1 == at + rel
    requires prev == HeldOf(at, was)
    ensures h == HeldOf(at, Update(env, was, k, rel, v))
  {
    hide At;
    hide IsNumKw;
    hide IsIntKw;
    hide IsStrKw;
    hide IsSubKw;
    hide IsBranchKw;
    hide IsManyKw;
    hide IsPropsKw;
    hide ToDouble;
    hide ToInt32;
    hide TypeSet;
    hide ValidSub;
    hide NodeValidSub;
    hide TokenOf;
    hide IsTrue;
    hide NodeTrue;
    hide IsStr;
    NodeFacts(pool, key + 1, v);
    var val := pool[key + 1];
    h := prev;
    if IsNumKw(k) {
      h := NumH(ToDouble(env, val.tok));
    } else if IsIntKw(k) {
      h := IntH(ToInt32(env, val.tok));
    } else if IsStrKw(k) {
      h := StrH(val.tok);
    } else if k == KType {
      h := UpdateType(pool, key + 1, prev, v);
    } else if k == KUniqueItems {
      h := FlagH(NodeTrue(val));
    } else if IsSubKw(k) || IsBranchKw(k) {
      if NodeValidSub(val) {
        h := SubH(key + 1);
      }
    } else if IsManyKw(k) || k == KRequired {
      if val.kind == AstArray {
        var n := CountItems(pool, key + 1, v);
        h := ManyH(key + 1, HeldCount(prev) + n);
      }
    } else if IsPropsKw(k) {
      if val.kind == AstObject {
        var n := CountMembers(pool, key + 1, v);
        h := ManyH(key + 1, HeldCount(prev) + n);
      }
    } else if k == KAdditionalProperties {
      h := SubH(key + 1);
    }
  }

  lemma HoldsStep(hs: HeldFields, at: nat, f: Fields, k: Kw, h: Held, s: Slot)
    requires Holds(hs, at, f) && h == HeldOf(at, s)
    ensures Holds(hs[k := h], at, f[k := s])
  {
    hide HeldOf;
    var hs', f' := hs[k := h], f[k := s];
    forall j ensures GetH(hs', j) == HeldOf(at, Get(f', j)) {
      assert GetH(hs, j) == HeldOf(at, Get(f, j));
    }
  }

  lemma HoldsAt(hs: HeldFields, at: nat, f: Fields, k: Kw)
    requires Holds(hs, at, f)
    ensures GetH(hs, k) == HeldOf(at, Get(f, k))
  {
    hide HeldOf;
    hide Get;
    hide GetH;
  }

  lemma HoldsNothing(at: nat, env: Env, ms: seq<Member>)
    ensures Holds(map[], at, FieldsUpTo(env, ms, 0))
  {
    hide KwOf;
    hide Update;
  }

  /** The first loop of pass 2, over the members of a schema object. */
  method CollectFields(env: Env, pool: seq<Node>, at: nat, ghost t: Tree) returns (hs: HeldFields)
    requires At(pool, at, t) && t.Obj?
    ensures Holds(hs, at, FieldsUpTo(env, t.members, |t.members|))
  {
    hide *;
    ghost var ms := t.members;
    AtBound(pool, at, t);
    FirstMember(pool, at, t);
    CursorEnd(pool, at, ms, 0, pool[at].firstChild);
    hs := map[];
    HoldsNothing(at, env, ms);
    ghost var i := 0;
    var key := pool[at].firstChild;
    while key != -1
      invariant i <= |ms| && MemberCursor(pool, at, ms, i, key)
      invariant key == -1 <==> i == |ms|
      invariant Holds(hs, at, FieldsUpTo(env, ms, i))
      decreases |ms| - i
    {
      MemberStep(pool, at, ms, i, key);
      KeyFacts(pool, key, ms[i]);
      KwOfKey(ms[i]);
      var k := KwOfToken(pool[key].tok);
      ghost var f := FieldsUpTo(env, ms, i);
      HoldsAt(hs, at, f, k);
      var h := UpdateHeld(env, pool, key, k, GetH(hs, k), ms[i].val, at, PosOf(ms, i) + 1, Get(f, k));
      HoldsStep(hs, at, f, k, h, Update(env, Get(f, k), k, PosOf(ms, i) + 1, ms[i].val));
      FieldsStep(env, ms, i);
      hs := hs[k := h];
      key := pool[key + 1].nextSibling;
      i := i + 1;
      CursorEnd(pool, at, ms, i, key);
    }
  }

  lemma KwOfKey(m: Member)
    ensures KwOf(m) == KwOfToken(m.key)
  {
    hide KwOfToken;
  }

  // ---------------------------------------------------------------- what is gathered is in the pool

  ghost predicate SlotOk(pool: seq<Node>, at: nat, s: Slot) {
    match s
    case Str(tok) => WfToken(tok)
    case Sub(ref) => At(pool, at + ref.rel, ref.sub)
    case Many(last, _) => At(pool, at + last.rel, last.sub) && WfTree(last.sub)
    case _ => true
  }

  lemma UpdateOk(env: Env, pool: seq<Node>, at: nat, prev: Slot, k: Kw, rel: nat, v: Tree)
    requires SlotOk(pool, at, prev) && At(pool, at + rel, v) && WfTree(v)
    ensures SlotOk(pool, at, Update(env, prev, k, rel, v))
  {
    hide At;
    hide WfToken;
    hide WfTree;
    hide ToDouble;
    hide ToInt32;
    hide TypeSet;
    hide IsNumKw;
    hide IsIntKw;
    hide IsStrKw;
    hide IsSubKw;
    hide IsBranchKw;
    hide IsManyKw;
    hide IsPropsKw;
    hide ValidSub;
    hide IsArray;
    hide IsObject;
    hide IsStr;
    hide IsTrue;
    hide CountIn;
    hide TypesIn;
    WfRoot(v);
  }

  lemma MemberAt(pool: seq<Node>, at: nat, t: Tree, i: nat)
    requires At(pool, at, t) && t.Obj? && i < |t.members|
    ensures At(pool, at + PosOf(t.members, i) + 1, t.members[i].val)
  {
    hide *;
    AtBound(pool, at, t);
    FirstMember(pool, at, t);
    CursorUpTo(pool, at, t.members, pool[at].firstChild, i);
  }

  lemma {:induction false} CursorUpTo(pool: seq<Node>, at: nat, ms: seq<Member>, first: int, i: nat)
    requires MemberCursor(pool, at, ms, 0, first) && i < |ms|
    ensures At(pool, at + PosOf(ms, i) + 1, ms[i].val)
    ensures exists cur :: MemberCursor(pool, at, ms, i, cur)
  {
    hide *;
    if i == 0 {
      MemberStep(pool, at, ms, 0, first);
    } else {
      CursorUpTo(pool, at, ms, first, i - 1);
      var cur :| MemberCursor(pool, at, ms, i - 1, cur);
      MemberStep(pool, at, ms, i - 1, cur);
      MemberStep(pool, at, ms, i, pool[cur + 1].nextSibling);
    }
  }

  lemma {:induction false} FieldsOk(env: Env, pool: seq<Node>, at: nat, t: Tree, i: nat, k: Kw)
    requires At(pool, at, t) && WfTree(t) && t.Obj? && i <= |t.members|
    ensures SlotOk(pool, at, Get(FieldsUpTo(env, t.members, i), k))
  {
    hide At;
    hide WfTree;
    hide WfToken;
    hide KwOf;
    hide Update;
    if i > 0 {
      FieldsOk(env, pool, at, t, i - 1, k);
      MemberAt(pool, at, t, i - 1);
      WfMembers(t, i - 1);
      UpdateOk(env, pool, at, Get(FieldsUpTo(env, t.members, i - 1), k), k, PosOf(t.members, i - 1) + 1, t.members[i - 1].val);
    }
  }
}
