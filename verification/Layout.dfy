/** The shape of compiled code, as functions of the schema tree: what each schema node
    contributes, where its subschemas are visited, and the bytes of each instruction. */
module Layout {
  import opened Bytes
  import opened Ast
  import opened Keywords
  import opened Semantics

  /** A node of the schema, by its distance from the schema node that refers to it. */
  datatype Ref = Ref(rel: nat, sub: Tree)

  // ---------------------------------------------------------------- visiting order

  /** `token_equals`. */
  predicate TokenSpells(t: Token, s: string) {
    t.kind == TString && Spells(t.raw, s)
  }

  predicate HasIf(ms: seq<Member>) {
    exists i :: 0 <= i < |ms| && TokenSpells(ms[i].key, "if")
  }

  /** Subschemas among the entries of an array, in order. */
  function EntryVisits(pos: nat, items: seq<Tree>): seq<Ref>
    decreases items
  {
    if items == [] then []
    else (if ValidSub(items[0]) then [Ref(pos, items[0])] else [])
         + EntryVisits(pos + Len(items[0]), items[1..])
  }

  /** The values of an object, in order. */
  function ValueVisits(pos: nat, ms: seq<Member>): seq<Ref>
    decreases ms
  {
    if ms == [] then []
    else [Ref(pos + 1, ms[0].val)] + ValueVisits(pos + 1 + Len(ms[0].val), ms[1..])
  }

  function MemberVisits(pos: nat, m: Member, hasIf: bool): seq<Ref> {
    var k := KwOf(m);
    if IsSubKw(k) then (if ValidSub(m.val) then [Ref(pos + 1, m.val)] else [])
    else if IsManyKw(k) then (if IsArray(m.val) then EntryVisits(pos + 2, m.val.items) else [])
    else if IsBranchKw(k) then (if hasIf && ValidSub(m.val) then [Ref(pos + 1, m.val)] else [])
    else if IsPropsKw(k) then (if IsObject(m.val) then ValueVisits(pos + 2, m.val.members) else [])
    else if k == KAdditionalProperties then
      (if IsObject(m.val) || IsTrue(m.val) then [Ref(pos + 1, m.val)] else [])
    else []
  }

  function VisitsFrom(pos: nat, ms: seq<Member>, hasIf: bool): seq<Ref>
    decreases ms
  {
    if ms == [] then []
    else MemberVisits(pos, ms[0], hasIf) + VisitsFrom(pos + 1 + Len(ms[0].val), ms[1..], hasIf)
  }

  /** `visit_subschemas`: the subschemas of a schema node in the order both passes go. */
  function Visits(t: Tree): seq<Ref> {
    if IsObject(t) then VisitsFrom(1, t.members, HasIf(t.members)) else []
  }

  /** The references lie one after another inside [lo, hi). */
  ghost predicate Within(vs: seq<Ref>, lo: nat, hi: nat) {
    if vs == [] then lo <= hi
    else lo <= vs[0].rel && Within(vs[1..], vs[0].rel + Len(vs[0].sub), hi)
  }

  lemma {:induction false} WithinWiden(vs: seq<Ref>, lo: nat, hi: nat, lo': nat, hi': nat)
    requires Within(vs, lo, hi) && lo' <= lo && hi <= hi'
    ensures Within(vs, lo', hi')
  {
    if vs != [] {
      WithinWiden(vs[1..], vs[0].rel + Len(vs[0].sub), hi, vs[0].rel + Len(vs[0].sub), hi');
    }
  }

  lemma {:induction false} WithinAppend(vs: seq<Ref>, ws: seq<Ref>, lo: nat, mid: nat, hi: nat)
    requires Within(vs, lo, mid) && Within(ws, mid, hi)
    ensures Within(vs + ws, lo, hi)
  {
    if vs == [] {
      assert vs + ws == ws;
      WithinWiden(ws, mid, hi, lo, hi);
    } else {
      WithinAppend(vs[1..], ws, vs[0].rel + Len(vs[0].sub), mid, hi);
      assert (vs + ws)[1..] == vs[1..] + ws;
    }
  }

  lemma {:induction false} WithinAt(vs: seq<Ref>, lo: nat, hi: nat, k: nat)
    requires Within(vs, lo, hi) && k < |vs|
    ensures lo <= vs[k].rel && vs[k].rel + Len(vs[k].sub) <= hi
  {
    if k == 0 {
      WithinEnd(vs[1..], vs[0].rel + Len(vs[0].sub), hi);
    } else {
      WithinAt(vs[1..], vs[0].rel + Len(vs[0].sub), hi, k - 1);
    }
  }

  lemma {:induction false} WithinEnd(vs: seq<Ref>, lo: nat, hi: nat)
    requires Within(vs, lo, hi)
    ensures lo <= hi
  {
    if vs != [] {
      WithinEnd(vs[1..], vs[0].rel + Len(vs[0].sub), hi);
    }
  }

  lemma {:induction false} EntryVisitsWithin(pos: nat, items: seq<Tree>)
    ensures Within(EntryVisits(pos, items), pos, pos + ItemsLen(items))
    decreases items
  {
    if items != [] {
      var n := Len(items[0]);
      EntryVisitsWithin(pos + n, items[1..]);
      var rest := EntryVisits(pos + n, items[1..]);
      var hi := pos + ItemsLen(items);
      var head := if ValidSub(items[0]) then [Ref(pos, items[0])] else [];
      assert Within(head, pos, pos + n) by { if head != [] { assert head[1..] == []; } }
      WithinAppend(head, rest, pos, pos + n, hi);
    }
  }

  lemma {:induction false} ValueVisitsWithin(pos: nat, ms: seq<Member>)
    ensures Within(ValueVisits(pos, ms), pos, pos + MembersLen(ms))
    decreases ms
  {
    if ms != [] {
      var n := 1 + Len(ms[0].val);
      ValueVisitsWithin(pos + n, ms[1..]);
      var head := [Ref(pos + 1, ms[0].val)];
      assert Within(head, pos, pos + n) by { assert head[1..] == []; }
      WithinAppend(head, ValueVisits(pos + n, ms[1..]), pos, pos + n, pos + MembersLen(ms));
    }
  }

  lemma WithinOne(r: Ref, lo: nat, hi: nat)
    requires lo <= r.rel && r.rel + Len(r.sub) <= hi
    ensures Within([r], lo, hi)
  {
    assert [r][1..] == [];
  }

  lemma EntriesWithin(pos: nat, v: Tree)
    requires v.Arr?
    ensures Within(EntryVisits(pos + 2, v.items), pos + 1, pos + 1 + Len(v))
  {
    hide Within;
    hide EntryVisits;
    EntryVisitsWithin(pos + 2, v.items);
    WithinWiden(EntryVisits(pos + 2, v.items), pos + 2, pos + 2 + ItemsLen(v.items), pos + 1, pos + 1 + Len(v));
  }

  lemma ValuesWithin(pos: nat, v: Tree)
    requires v.Obj?
    ensures Within(ValueVisits(pos + 2, v.members), pos + 1, pos + 1 + Len(v))
  {
    hide Within;
    hide ValueVisits;
    ValueVisitsWithin(pos + 2, v.members);
    WithinWiden(ValueVisits(pos + 2, v.members), pos + 2, pos + 2 + MembersLen(v.members), pos + 1, pos + 1 + Len(v));
  }

  /** What a member's visits can be. */
  lemma MemberVisitsForm(pos: nat, m: Member, hasIf: bool)
    ensures var vs := MemberVisits(pos, m, hasIf);
            || vs == [] || vs == [Ref(pos + 1, m.val)]
            || (m.val.Arr? && vs == EntryVisits(pos + 2, m.val.items))
            || (m.val.Obj? && vs == ValueVisits(pos + 2, m.val.members))
  {
    hide KwOf;
    hide EntryVisits;
    hide ValueVisits;
  }

  lemma MemberVisitsWithin(pos: nat, m: Member, hasIf: bool)
    ensures Within(MemberVisits(pos, m, hasIf), pos + 1, pos + 1 + Len(m.val))
  {
    hide *;
    MemberVisitsForm(pos, m, hasIf);
    WithinOne(Ref(pos + 1, m.val), pos + 1, pos + 1 + Len(m.val));
    WithinNone(pos + 1, pos + 1 + Len(m.val));
    if m.val.Arr? {
      EntriesWithin(pos, m.val);
    } else if m.val.Obj? {
      ValuesWithin(pos, m.val);
    }
  }

  lemma WithinNone(lo: nat, hi: nat)
    requires lo <= hi
    ensures Within([], lo, hi)
  {
  }

  lemma {:induction false} VisitsFromWithin(pos: nat, ms: seq<Member>, hasIf: bool)
    ensures Within(VisitsFrom(pos, ms, hasIf), pos, pos + MembersLen(ms))
    decreases ms
  {
    hide KwOf;
    hide MemberVisits;
    if ms != [] {
      var n := 1 + Len(ms[0].val);
      MemberVisitsWithin(pos, ms[0], hasIf);
      VisitsFromWithin(pos + n, ms[1..], hasIf);
      WithinWiden(MemberVisits(pos, ms[0], hasIf), pos + 1, pos + n, pos, pos + n);
      WithinAppend(MemberVisits(pos, ms[0], hasIf), VisitsFrom(pos + n, ms[1..], hasIf), pos, pos + n, pos + MembersLen(ms));
    }
  }

  /** Visited subschemas are disjoint, in order, and inside the schema node. */
  lemma VisitsWithin(t: Tree)
    ensures Within(Visits(t), 1, Len(t))
  {
    hide HasIf;
    hide VisitsFrom;
    if IsObject(t) {
      VisitsFromWithin(1, t.members, HasIf(t.members));
    }
  }

  lemma VisitSmaller(t: Tree, k: nat)
    requires k < |Visits(t)|
    ensures 1 <= Visits(t)[k].rel && Visits(t)[k].rel + Len(Visits(t)[k].sub) <= Len(t)
  {
    VisitsWithin(t);
    WithinAt(Visits(t), 1, Len(t), k);
  }

  /** Visited subschema number `k`. */
  function Visit(t: Tree, k: nat): (r: Ref)
    requires k < |Visits(t)|
    ensures 1 <= r.rel && r.rel + Len(r.sub) <= Len(t)
  {
    VisitSmaller(t, k);
    Visits(t)[k]
  }
}
