/** Which nodes of a schema the visitor reaches, and which it passes by. */
module Cover {
  import opened Bytes
  import opened Ast
  import opened Keywords
  import opened Layout
  import opened Code
  import opened Walk

  // ---------------------------------------------------------------- visited nodes are in the pool

  lemma {:induction false} EntryVisitsAt(pool: seq<Node>, base: nat, pos: nat, items: seq<Tree>, k: nat)
    requires ItemsAt(pool, base + pos, items) && k < |EntryVisits(pos, items)|
    ensures At(pool, base + EntryVisits(pos, items)[k].rel, EntryVisits(pos, items)[k].sub)
    decreases items
  {
    hide At;
    hide ValidSub;
    hide Len;
    var n := if ValidSub(items[0]) then 1 else 0;
    if k >= n {
      EntryVisitsAt(pool, base, pos + Len(items[0]), items[1..], k - n);
    }
  }

  lemma {:induction false} ValueVisitsAt(pool: seq<Node>, base: nat, pos: nat, ms: seq<Member>, k: nat)
    requires MembersAt(pool, base + pos, ms) && k < |ValueVisits(pos, ms)|
    ensures At(pool, base + ValueVisits(pos, ms)[k].rel, ValueVisits(pos, ms)[k].sub)
    decreases ms
  {
    hide At;
    hide KeyAt;
    hide Len;
    if k > 0 {
      ValueVisitsAt(pool, base, pos + 1 + Len(ms[0].val), ms[1..], k - 1);
    }
  }

  lemma ChildrenAt(pool: seq<Node>, i: nat, t: Tree)
    requires At(pool, i, t)
    ensures t.Arr? ==> ItemsAt(pool, i + 1, t.items)
    ensures t.Obj? ==> MembersAt(pool, i + 1, t.members)
  {
    hide ItemsAt;
    hide MembersAt;
  }

  lemma MemberVisitsAt(pool: seq<Node>, base: nat, pos: nat, m: Member, hasIf: bool, k: nat)
    requires At(pool, base + pos + 1, m.val) && k < |MemberVisits(pos, m, hasIf)|
    ensures At(pool, base + MemberVisits(pos, m, hasIf)[k].rel, MemberVisits(pos, m, hasIf)[k].sub)
  {
    hide *;
    MemberVisitsForm(pos, m, hasIf);
    ChildrenAt(pool, base + pos + 1, m.val);
    if m.val.Arr? && MemberVisits(pos, m, hasIf) == EntryVisits(pos + 2, m.val.items) {
      EntryVisitsAt(pool, base, pos + 2, m.val.items, k);
    } else if m.val.Obj? && MemberVisits(pos, m, hasIf) == ValueVisits(pos + 2, m.val.members) {
      ValueVisitsAt(pool, base, pos + 2, m.val.members, k);
    }
  }

  lemma {:induction false} VisitsFromAt(pool: seq<Node>, base: nat, pos: nat, ms: seq<Member>, hasIf: bool, k: nat)
    requires MembersAt(pool, base + pos, ms) && k < |VisitsFrom(pos, ms, hasIf)|
    ensures At(pool, base + VisitsFrom(pos, ms, hasIf)[k].rel, VisitsFrom(pos, ms, hasIf)[k].sub)
    decreases ms
  {
    hide At;
    hide KeyAt;
    hide Len;
    hide MemberVisits;
    var n := |MemberVisits(pos, ms[0], hasIf)|;
    if k < n {
      MemberVisitsAt(pool, base, pos, ms[0], hasIf, k);
    } else {
      VisitsFromAt(pool, base, pos + 1 + Len(ms[0].val), ms[1..], hasIf, k - n);
    }
  }

  lemma VisitAt(pool: seq<Node>, at: nat, t: Tree, k: nat)
    requires At(pool, at, t) && k < |Visits(t)|
    ensures At(pool, at + Visit(t, k).rel, Visit(t, k).sub)
  {
    hide At;
    hide VisitsFrom;
    hide HasIf;
    ChildrenAt(pool, at, t);
    VisitsFromAt(pool, at, 1, t.members, HasIf(t.members), k);
  }

  // ---------------------------------------------------------------- order

  lemma {:induction false} WithinOrdered(vs: seq<Ref>, lo: nat, hi: nat, j: nat, k: nat)
    requires Within(vs, lo, hi) && j < k < |vs|
    ensures vs[j].rel + Len(vs[j].sub) <= vs[k].rel
  {
    var next := vs[0].rel + Len(vs[0].sub);
    if j == 0 {
      WithinAt(vs[1..], next, hi, k - 1);
    } else {
      WithinOrdered(vs[1..], next, hi, j - 1, k - 1);
    }
  }

  /** Visited subschemas come in preorder and do not overlap. */
  lemma VisitsOrdered(t: Tree, j: nat, k: nat)
    requires j < k < |Visits(t)|
    ensures Visit(t, j).rel + Len(Visit(t, j).sub) <= Visit(t, k).rel
  {
    hide Visits;
    hide Within;
    VisitsWithin(t);
    WithinOrdered(Visits(t), 1, Len(t), j, k);
  }

  // ---------------------------------------------------------------- nodes passed by

  ghost predicate Covers(vs: seq<Ref>, q: nat) {
    exists k :: 0 <= k < |vs| && vs[k].rel <= q < vs[k].rel + Len(vs[k].sub)
  }

  lemma CoversAppend(vs: seq<Ref>, ws: seq<Ref>, q: nat)
    requires !Covers(vs, q) && !Covers(ws, q)
    ensures !Covers(vs + ws, q)
  {
    hide Len;
  }

  lemma OutsideNotCovered(vs: seq<Ref>, lo: nat, hi: nat, q: nat)
    requires Within(vs, lo, hi) && (q < lo || hi <= q)
    ensures !Covers(vs, q)
  {
    hide Len;
    hide Within;
    forall k | 0 <= k < |vs| ensures !(vs[k].rel <= q < vs[k].rel + Len(vs[k].sub)) {
      WithinAt(vs, lo, hi, k);
    }
  }

  /** Where entry `j` of an array lies when its first entry lies at `pos`. */
  function EntryPos(pos: nat, items: seq<Tree>, j: nat): nat
    requires j < |items|
    decreases items
  {
    if j == 0 then pos else EntryPos(pos + Len(items[0]), items[1..], j - 1)
  }

  lemma {:induction false} EntryPosAfter(pos: nat, items: seq<Tree>, j: nat)
    requires j < |items|
    ensures pos <= EntryPos(pos, items, j) && EntryPos(pos, items, j) + Len(items[j]) <= pos + ItemsLen(items)
    decreases items
  {
    if j > 0 {
      EntryPosAfter(pos + Len(items[0]), items[1..], j - 1);
    }
  }

  lemma {:induction false} EntryPassedBy(pos: nat, items: seq<Tree>, j: nat)
    requires j < |items| && !ValidSub(items[j])
    ensures !Covers(EntryVisits(pos, items), EntryPos(pos, items, j))
    decreases items
  {
    hide ValidSub;
    hide Covers;
    hide Within;
    var n := Len(items[0]);
    var q := EntryPos(pos, items, j);
    var head := if ValidSub(items[0]) then [Ref(pos, items[0])] else [];
    var tail := EntryVisits(pos + n, items[1..]);
    EntryVisitsWithin(pos + n, items[1..]);
    if j == 0 {
      OutsideNotCovered(tail, pos + n, pos + n + ItemsLen(items[1..]), q);
      WithinNone(pos, pos);
      OutsideNotCovered(head, pos, pos, q);
    } else {
      EntryPassedBy(pos + n, items[1..], j - 1);
      EntryPosAfter(pos + n, items[1..], j - 1);
      WithinNone(pos, pos + n);
      WithinOne(Ref(pos, items[0]), pos, pos + n);
      OutsideNotCovered(head, pos, pos + n, q);
    }
    CoversAppend(head, tail, q);
  }

  lemma {:induction false} MemberPassedBy(pos: nat, ms: seq<Member>, hasIf: bool, i: nat, p: nat, q: nat)
    requires i < |ms| && p == MemberPos(pos, ms, i)
    requires p < q < p + 1 + Len(ms[i].val) && !Covers(MemberVisits(p, ms[i], hasIf), q)
    ensures !Covers(VisitsFrom(pos, ms, hasIf), q)
    decreases ms
  {
    hide MemberVisits;
    hide Covers;
    hide Within;
    var n := 1 + Len(ms[0].val);
    var head := MemberVisits(pos, ms[0], hasIf);
    var tail := VisitsFrom(pos + n, ms[1..], hasIf);
    if i == 0 {
      VisitsFromWithin(pos + n, ms[1..], hasIf);
      OutsideNotCovered(tail, pos + n, pos + n + MembersLen(ms[1..]), q);
    } else {
      MemberPassedBy(pos + n, ms[1..], hasIf, i - 1, p, q);
      MemberPosAfter(pos + n, ms[1..], i - 1);
      MemberVisitsWithin(pos, ms[0], hasIf);
      OutsideNotCovered(head, pos + 1, pos + n, q);
    }
    CoversAppend(head, tail, q);
  }

  function MemberPos(pos: nat, ms: seq<Member>, i: nat): nat
    requires i < |ms|
    decreases ms
  {
    if i == 0 then pos else MemberPos(pos + 1 + Len(ms[0].val), ms[1..], i - 1)
  }

  lemma {:induction false} MemberPosAfter(pos: nat, ms: seq<Member>, i: nat)
    requires i < |ms|
    ensures pos <= MemberPos(pos, ms, i)
    decreases ms
  {
    if i > 0 {
      MemberPosAfter(pos + 1 + Len(ms[0].val), ms[1..], i - 1);
    }
  }

  // ---------------------------------------------------------------- positions counted from the front

  lemma {:induction false} ItemPosCons(x: Tree, rest: seq<Tree>, j: nat)
    requires j <= |rest|
    ensures ItemPos([x] + rest, j + 1) == Len(x) + ItemPos(rest, j)
  {
    if j > 0 {
      ItemPosCons(x, rest, j - 1);
    }
  }

  lemma {:induction false} EntryPosIs(pos: nat, items: seq<Tree>, j: nat)
    requires j < |items|
    ensures EntryPos(pos, items, j) + 1 == pos + ItemPos(items, j)
    decreases items
  {
    if j > 0 {
      assert items == [items[0]] + items[1..];
      ItemPosCons(items[0], items[1..], j - 1);
      EntryPosIs(pos + Len(items[0]), items[1..], j - 1);
    }
  }

  lemma {:induction false} EntryRefAt(pos: nat, items: seq<Tree>, j: nat)
    requires j < |items|
    ensures EntryRefs(pos, items)[j] == Ref(EntryPos(pos, items, j), items[j])
    decreases items
  {
    if j > 0 {
      EntryRefAt(pos + Len(items[0]), items[1..], j - 1);
    }
  }

  lemma {:induction false} PosOfCons(m: Member, rest: seq<Member>, j: nat)
    requires j <= |rest|
    ensures PosOf([m] + rest, j + 1) == 1 + Len(m.val) + PosOf(rest, j)
  {
    if j > 0 {
      PosOfCons(m, rest, j - 1);
    }
  }

  lemma {:induction false} MemberPosIs(pos: nat, ms: seq<Member>, j: nat)
    requires j < |ms|
    ensures MemberPos(pos, ms, j) + 1 == pos + PosOf(ms, j)
    decreases ms
  {
    if j > 0 {
      assert ms == [ms[0]] + ms[1..];
      PosOfCons(ms[0], ms[1..], j - 1);
      MemberPosIs(pos + 1 + Len(ms[0].val), ms[1..], j - 1);
    }
  }

  lemma {:induction false} RuleAt(pos: nat, ms: seq<Member>, j: nat)
    requires j < |ms|
    ensures RulesOf(pos, ms)[j] == Rule(Text(ms[j].key), Ref(MemberPos(pos, ms, j) + 1, ms[j].val))
    decreases ms
  {
    hide Text;
    if j > 0 {
      RuleAt(pos + 1 + Len(ms[0].val), ms[1..], j - 1);
    }
  }

  // ---------------------------------------------------------------- what is visited

  lemma {:induction false} InVisitsFrom(pos: nat, ms: seq<Member>, hasIf: bool, i: nat, r: Ref)
    requires i < |ms| && r in MemberVisits(MemberPos(pos, ms, i), ms[i], hasIf)
    ensures r in VisitsFrom(pos, ms, hasIf)
    decreases ms
  {
    hide MemberVisits;
    hide Len;
    if i > 0 {
      InVisitsFrom(pos + 1 + Len(ms[0].val), ms[1..], hasIf, i - 1, r);
    }
  }

  lemma InVisits(t: Tree, i: nat, r: Ref)
    requires IsObject(t) && i < |t.members|
    requires r in MemberVisits(PosOf(t.members, i), t.members[i], HasIf(t.members))
    ensures r in Visits(t)
  {
    hide HasIf;
    hide MemberVisits;
    hide VisitsFrom;
    hide PosOf;
    MemberPosIs(1, t.members, i);
    InVisitsFrom(1, t.members, HasIf(t.members), i, r);
  }

  lemma {:induction false} InEntryVisits(pos: nat, items: seq<Tree>, j: nat)
    requires j < |items| && ValidSub(items[j])
    ensures Ref(EntryPos(pos, items, j), items[j]) in EntryVisits(pos, items)
    decreases items
  {
    hide ValidSub;
    hide Len;
    if j > 0 {
      InEntryVisits(pos + Len(items[0]), items[1..], j - 1);
    }
  }

  lemma {:induction false} InValueVisits(pos: nat, ms: seq<Member>, j: nat)
    requires j < |ms|
    ensures Ref(MemberPos(pos, ms, j) + 1, ms[j].val) in ValueVisits(pos, ms)
    decreases ms
  {
    hide Len;
    if j > 0 {
      InValueVisits(pos + 1 + Len(ms[0].val), ms[1..], j - 1);
    }
  }

  lemma ManyVisits(p: nat, m: Member, hasIf: bool)
    requires IsManyKw(KwOf(m)) && IsArray(m.val)
    ensures m.val.Arr? && MemberVisits(p, m, hasIf) == EntryVisits(p + 2, m.val.items)
    ensures Len(m.val) == 1 + ItemsLen(m.val.items)
  {
    hide KwOfToken;
    hide EntryVisits;
    hide ItemsLen;
  }

  lemma VisitsOfObject(t: Tree)
    requires IsObject(t)
    ensures t.Obj? && Visits(t) == VisitsFrom(1, t.members, HasIf(t.members))
  {
    hide HasIf;
    hide VisitsFrom;
  }

  /** An entry that is no schema lies under no visited subschema. */
  lemma EntryNotVisited(t: Tree, i: nat, j: nat)
    requires IsObject(t) && t.Obj? && i < |t.members|
    requires IsManyKw(KwOf(t.members[i])) && IsArray(t.members[i].val) && t.members[i].val.Arr?
    requires j < |t.members[i].val.items| && !ValidSub(t.members[i].val.items[j])
    ensures !Covers(Visits(t), EntryPos(PosOf(t.members, i) + 2, t.members[i].val.items, j))
  {
    hide *;
    var ms := t.members;
    var items := ms[i].val.items;
    var p := PosOf(ms, i);
    ManyVisits(p, ms[i], HasIf(ms));
    VisitsOfObject(t);
    MemberPosIs(1, ms, i);
    EntryPassedBy(p + 2, items, j);
    EntryPosAfter(p + 2, items, j);
    MemberPassedBy(1, ms, HasIf(ms), i, p, EntryPos(p + 2, items, j));
  }
}
