/** Pass 1 of the schema compiler: `visit_subschemas` and `calculate_schema_size`
    (src/validation/schema.c). The visitor callback is modelled by returning the visited
    node indices in call order. */
module Pass1 {
  import opened Bytes
  import opened Ast
  import opened Keywords
  import opened Semantics
  import opened Layout
  import opened Code
  import opened Sizes
  import opened Agreement
  import opened PoolSizes
  import opened Placement
  import opened Walk
  import opened Cover

  // ---------------------------------------------------------------- visiting

  /** The node indices that references of the node at `at` stand for. */
  function NodesOf(at: nat, refs: seq<Ref>): (r: seq<nat>)
    ensures |r| == |refs|
  {
    seq(|refs|, i requires 0 <= i < |refs| => at + refs[i].rel)
  }

  lemma NodesAppend(at: nat, a: seq<Ref>, b: seq<Ref>)
    ensures NodesOf(at, a + b) == NodesOf(at, a) + NodesOf(at, b)
  {
  }

  /** The first member with the key, and its value's node. */
  ghost predicate SpelledAt(ms: seq<Member>, name: string, at: nat, r: int) {
    exists i :: 0 <= i < |ms| && TokenSpells(ms[i].key, name) && r == at + PosOf(ms, i) + 1
                && forall j :: 0 <= j < i ==> !TokenSpells(ms[j].key, name)
  }

  lemma SpelledHere(pool: seq<Node>, at: nat, ms: seq<Member>, i: nat, key: nat, name: string)
    requires MemberCursor(pool, at, ms, i, key) && i < |ms| && TokenSpells(ms[i].key, name)
    requires forall j :: 0 <= j < i ==> !TokenSpells(ms[j].key, name)
    ensures SpelledAt(ms, name, at, key + 1)
  {
    hide MembersAt;
    hide TokenSpells;
    hide PosOf;
  }

  /** `object_find_key_val_idx`: the value of the first member with the key. */
  method FindKeyValue(pool: seq<Node>, at: nat, name: string, ghost t: Tree) returns (r: int)
    requires At(pool, at, t) && t.Obj?
    ensures r != -1 <==> exists i :: 0 <= i < |t.members| && TokenSpells(t.members[i].key, name)
    ensures r != -1 ==> SpelledAt(t.members, name, at, r)
  {
    hide *;
    AtBound(pool, at, t);
    FirstMember(pool, at, t);
    var key := pool[at].firstChild;
    CursorEnd(pool, at, t.members, 0, key);
    ghost var i := 0;
    while key != -1
      invariant i <= |t.members| && MemberCursor(pool, at, t.members, i, key)
      invariant key == -1 <==> i == |t.members|
      invariant forall j :: 0 <= j < i ==> !TokenSpells(t.members[j].key, name)
      decreases |t.members| - i
    {
      MemberStep(pool, at, t.members, i, key);
      KeyFacts(pool, key, t.members[i]);
      if TokenSpells(pool[key].tok, name) {
        SpelledHere(pool, at, t.members, i, key, name);
        return key + 1;
      }
      key := pool[key + 1].nextSibling;
      i := i + 1;
      CursorEnd(pool, at, t.members, i, key);
    }
    r := -1;
  }

  lemma EntryVisitsCons(pos: nat, x: Tree, rest: seq<Tree>)
    ensures EntryVisits(pos, [x] + rest)
         == (if ValidSub(x) then [Ref(pos, x)] else []) + EntryVisits(pos + Len(x), rest)
  {
    hide ValidSub;
    assert ([x] + rest)[1..] == rest;
  }

  method VisitEntries(pool: seq<Node>, at: nat, base: nat, ghost v: Tree) returns (vs: seq<nat>)
    requires At(pool, at, v) && v.Arr? && base < at
    ensures vs == NodesOf(base, EntryVisits(at - base + 1, v.items))
  {
    hide *;
    AtBound(pool, at, v);
    FirstItem(pool, at, v);
    var sub := pool[at].firstChild;
    ItemCursorEnd(pool, at, v.items, 0, sub);
    vs := [];
    ghost var i := 0;
    ghost var rel := at - base;
    ghost var all := EntryVisits(rel + 1, v.items);
    VisitEntriesStart(base, rel, v.items);
    while sub != -1
      invariant i <= |v.items| && ItemCursor(pool, at, v.items, i, sub)
      invariant sub == -1 <==> i == |v.items|
      invariant vs + NodesOf(base, EntryVisits(rel + ItemPos(v.items, i), v.items[i..])) == NodesOf(base, all)
      decreases |v.items| - i
    {
      ItemStep(pool, at, v.items, i, sub);
      NodeFacts(pool, sub, v.items[i]);
      ghost var before := vs;
      if NodeValidSub(pool[sub]) {
        vs := vs + [sub];
      }
      VisitEntriesStep(base, rel, v.items, i, before, vs, sub);
      sub := pool[sub].nextSibling;
      i := i + 1;
      ItemCursorEnd(pool, at, v.items, i, sub);
    }
    VisitEntriesEnd(base, rel, v.items);
  }

  lemma VisitEntriesStart(base: nat, rel: nat, items: seq<Tree>)
    ensures [] + NodesOf(base, EntryVisits(rel + ItemPos(items, 0), items[0..])) == NodesOf(base, EntryVisits(rel + 1, items))
  {
    hide EntryVisits;
    assert items[0..] == items;
  }

  lemma VisitEntriesEnd(base: nat, rel: nat, items: seq<Tree>)
    ensures NodesOf(base, EntryVisits(rel + ItemPos(items, |items|), items[|items|..])) == []
  {
    hide ItemPos;
  }

  lemma VisitEntriesStep(base: nat, rel: nat, items: seq<Tree>, i: nat, before: seq<nat>, after: seq<nat>, sub: nat)
    requires i < |items| && sub == base + rel + ItemPos(items, i)
    requires after == before + (if ValidSub(items[i]) then [sub] else [])
    ensures after + NodesOf(base, EntryVisits(rel + ItemPos(items, i + 1), items[i + 1..]))
         == before + NodesOf(base, EntryVisits(rel + ItemPos(items, i), items[i..]))
  {
    var pos := rel + ItemPos(items, i);
    var next := rel + ItemPos(items, i + 1);
    assert next == pos + Len(items[i]);
    assert items[i..] == [items[i]] + items[i + 1..];
    var head := if ValidSub(items[i]) then [Ref(pos, items[i])] else [];
    assert NodesOf(base, head) == (if ValidSub(items[i]) then [sub] else []);
    hide *;
    var tail := EntryVisits(next, items[i + 1..]);
    EntryVisitsCons(pos, items[i], items[i + 1..]);
    NodesAppend(base, head, tail);
    Regroup(before, NodesOf(base, head), NodesOf(base, tail));
  }

  lemma ValueVisitsCons(pos: nat, m: Member, rest: seq<Member>)
    ensures ValueVisits(pos, [m] + rest) == [Ref(pos + 1, m.val)] + ValueVisits(pos + 1 + Len(m.val), rest)
  {
    assert ([m] + rest)[1..] == rest;
  }

  method VisitValues(pool: seq<Node>, at: nat, base: nat, ghost v: Tree) returns (vs: seq<nat>)
    requires At(pool, at, v) && v.Obj? && base < at
    ensures vs == NodesOf(base, ValueVisits(at - base + 1, v.members))
  {
    hide *;
    AtBound(pool, at, v);
    FirstMember(pool, at, v);
    var p := pool[at].firstChild;
    CursorEnd(pool, at, v.members, 0, p);
    vs := [];
    ghost var i := 0;
    ghost var rel := at - base;
    ghost var all := ValueVisits(rel + 1, v.members);
    VisitValuesStart(base, rel, v.members);
    while p != -1
      invariant i <= |v.members| && MemberCursor(pool, at, v.members, i, p)
      invariant p == -1 <==> i == |v.members|
      invariant vs + NodesOf(base, ValueVisits(rel + PosOf(v.members, i), v.members[i..])) == NodesOf(base, all)
      decreases |v.members| - i
    {
      MemberStep(pool, at, v.members, i, p);
      ghost var before := vs;
      vs := vs + [p + 1];
      VisitValuesStep(base, rel, v.members, i, before, p + 1);
      p := pool[p + 1].nextSibling;
      i := i + 1;
      CursorEnd(pool, at, v.members, i, p);
    }
    VisitValuesEnd(base, rel, v.members);
  }

  lemma VisitValuesStart(base: nat, rel: nat, ms: seq<Member>)
    ensures [] + NodesOf(base, ValueVisits(rel + PosOf(ms, 0), ms[0..])) == NodesOf(base, ValueVisits(rel + 1, ms))
  {
    hide ValueVisits;
    assert ms[0..] == ms;
  }

  lemma VisitValuesEnd(base: nat, rel: nat, ms: seq<Member>)
    ensures NodesOf(base, ValueVisits(rel + PosOf(ms, |ms|), ms[|ms|..])) == []
  {
    hide PosOf;
  }

  lemma VisitValuesStep(base: nat, rel: nat, ms: seq<Member>, i: nat, before: seq<nat>, val: nat)
    requires i < |ms| && val == base + rel + PosOf(ms, i) + 1
    ensures before + [val] + NodesOf(base, ValueVisits(rel + PosOf(ms, i + 1), ms[i + 1..]))
         == before + NodesOf(base, ValueVisits(rel + PosOf(ms, i), ms[i..]))
  {
    var pos := rel + PosOf(ms, i);
    var next := rel + PosOf(ms, i + 1);
    assert next == pos + 1 + Len(ms[i].val);
    assert ms[i..] == [ms[i]] + ms[i + 1..];
    var head := [Ref(pos + 1, ms[i].val)];
    assert NodesOf(base, head) == [val];
    hide *;
    var tail := ValueVisits(next, ms[i + 1..]);
    ValueVisitsCons(pos, ms[i], ms[i + 1..]);
    NodesAppend(base, head, tail);
    Regroup(before, NodesOf(base, head), NodesOf(base, tail));
  }

  lemma NodesOne(base: nat, r: Ref)
    ensures NodesOf(base, [r]) == [base + r.rel] && NodesOf(base, []) == []
  {
  }

  /** The cases of the visitor's switch. */
  method VisitMember(pool: seq<Node>, at: nat, key: nat, ghost t: Tree, ghost i: nat) returns (vs: seq<nat>)
    requires At(pool, at, t) && t.Obj? && i < |t.members| && key == at + PosOf(t.members, i)
    requires key + 1 < |pool| && KeyAt(pool, key, t.members[i]) && At(pool, key + 1, t.members[i].val)
    ensures vs == NodesOf(at, MemberVisits(key - at, t.members[i], HasIf(t.members)))
  {
    hide HasIf;
    hide KwOfToken;
    hide EntryVisits;
    hide ValueVisits;
    hide At;
    hide KeyAt;
    hide NodesOf;
    hide ValidSub;
    hide NodeValidSub;
    hide NodeTrue;
    hide IsTrue;
    hide PosOf;
    KeyFacts(pool, key, t.members[i]);
    NodeFacts(pool, key + 1, t.members[i].val);
    NodesOne(at, Ref(key - at + 1, t.members[i].val));
    PosPositive(t.members, i);
    var val := pool[key + 1];
    var k := KwOfToken(pool[key].tok);
    vs := [];
    if IsSubKw(k) {
      if NodeValidSub(val) {
        vs := [key + 1];
      }
    } else if IsManyKw(k) {
      if val.kind == AstArray {
        vs := VisitEntries(pool, key + 1, at, t.members[i].val);
      }
    } else if IsBranchKw(k) {
      var found := FindIf(pool, at, t);
      if found {
        if NodeValidSub(val) {
          vs := [key + 1];
        }
      }
    } else if IsPropsKw(k) {
      if val.kind == AstObject {
        vs := VisitValues(pool, key + 1, at, t.members[i].val);
      }
    } else if k == KAdditionalProperties {
      if val.kind == AstObject || NodeTrue(val) {
        vs := [key + 1];
      }
    }
  }

  lemma PosPositive(ms: seq<Member>, i: nat)
    requires i <= |ms|
    ensures PosOf(ms, i) >= 1
  {
  }

  method FindIf(pool: seq<Node>, at: nat, ghost t: Tree) returns (found: bool)
    requires At(pool, at, t) && t.Obj?
    ensures found == HasIf(t.members)
  {
    hide At;
    hide TokenSpells;
    var r := FindKeyValue(pool, at, "if", t);
    found := r != -1;
  }

  lemma VisitsCons(pos: nat, m: Member, rest: seq<Member>, hasIf: bool)
    ensures VisitsFrom(pos, [m] + rest, hasIf)
         == MemberVisits(pos, m, hasIf) + VisitsFrom(pos + 1 + Len(m.val), rest, hasIf)
  {
    hide MemberVisits;
    assert ([m] + rest)[1..] == rest;
  }

  lemma VisitsSplit(ms: seq<Member>, hasIf: bool, i: nat)
    requires i < |ms|
    ensures VisitsFrom(PosOf(ms, i), ms[i..], hasIf)
         == MemberVisits(PosOf(ms, i), ms[i], hasIf) + VisitsFrom(PosOf(ms, i + 1), ms[i + 1..], hasIf)
  {
    hide VisitsFrom;
    hide MemberVisits;
    assert ms[i..] == [ms[i]] + ms[i + 1..];
    VisitsCons(PosOf(ms, i), ms[i], ms[i + 1..], hasIf);
  }

  lemma Accumulate(at: nat, before: seq<nat>, head: seq<Ref>, tail: seq<Ref>)
    ensures before + NodesOf(at, head) + NodesOf(at, tail) == before + NodesOf(at, head + tail)
  {
    hide *;
    NodesAppend(at, head, tail);
    Regroup(before, NodesOf(at, head), NodesOf(at, tail));
  }

  /** What is still to be visited from member `i` on. */
  ghost function VisitsLeft(ms: seq<Member>, i: nat): seq<Ref>
    requires i <= |ms|
  {
    VisitsFrom(PosOf(ms, i), ms[i..], HasIf(ms))
  }

  lemma VisitStep(at: nat, ms: seq<Member>, i: nat, before: seq<nat>, one: seq<nat>)
    requires i < |ms| && one == NodesOf(at, MemberVisits(PosOf(ms, i), ms[i], HasIf(ms)))
    ensures before + one + NodesOf(at, VisitsLeft(ms, i + 1)) == before + NodesOf(at, VisitsLeft(ms, i))
  {
    hide VisitsFrom;
    hide PosOf;
    hide MemberVisits;
    hide HasIf;
    hide NodesOf;
    VisitsSplit(ms, HasIf(ms), i);
    Accumulate(at, before, MemberVisits(PosOf(ms, i), ms[i], HasIf(ms)), VisitsLeft(ms, i + 1));
  }

  lemma VisitStart(at: nat, t: Tree)
    requires IsObject(t)
    ensures [] + NodesOf(at, VisitsLeft(t.members, 0)) == NodesOf(at, Visits(t))
  {
    hide VisitsFrom;
    hide HasIf;
    hide NodesOf;
    assert t.members[0..] == t.members;
  }

  lemma VisitEnd(at: nat, ms: seq<Member>, vs: seq<nat>)
    ensures vs + NodesOf(at, VisitsLeft(ms, |ms|)) == vs
  {
    hide PosOf;
    hide MemberVisits;
    hide HasIf;
  }

  /** `visit_subschemas`. */
  method VisitSubschemas(pool: seq<Node>, at: nat, ghost t: Tree) returns (vs: seq<nat>)
    requires At(pool, at, t) && t.Obj? && IsObject(t)
    ensures vs == NodesOf(at, Visits(t))
  {
    hide *;
    ghost var ms := t.members;
    AtBound(pool, at, t);
    FirstMember(pool, at, t);
    var key := pool[at].firstChild;
    CursorEnd(pool, at, ms, 0, key);
    vs := [];
    ghost var i := 0;
    ghost var goal := NodesOf(at, Visits(t));
    VisitStart(at, t);
    while key != -1
      invariant i <= |ms| && MemberCursor(pool, at, ms, i, key)
      invariant key == -1 <==> i == |ms|
      invariant vs + NodesOf(at, VisitsLeft(ms, i)) == goal
      decreases |ms| - i
    {
      MemberStep(pool, at, ms, i, key);
      var one := VisitMember(pool, at, key, t, i);
      VisitStep(at, ms, i, vs, one);
      vs := vs + one;
      key := pool[key + 1].nextSibling;
      i := i + 1;
      CursorEnd(pool, at, ms, i, key);
    }
    VisitEnd(at, ms, vs);
  }

  // ---------------------------------------------------------------- counting

  lemma ItemsDataCons(x: Tree, rest: seq<Tree>)
    ensures ItemsData([x] + rest) == RawLen(TokenOf(x)) + ItemsData(rest)
  {
    assert ([x] + rest)[1..] == rest;
  }

  lemma ItemsDataStep(items: seq<Tree>, i: nat)
    requires i < |items|
    ensures ItemsData(items[i..]) == RawLen(TokenOf(items[i])) + ItemsData(items[i + 1..])
  {
    hide *;
    assert items[i..] == [items[i]] + items[i + 1..];
    ItemsDataCons(items[i], items[i + 1..]);
  }

  lemma ItemsDataEnds(items: seq<Tree>)
    ensures items[0..] == items && ItemsData(items[|items|..]) == 0
  {
  }

  /** Counts the entries of `required` and the bytes of their strings. */
  method CountRequired(pool: seq<Node>, at: nat, ghost v: Tree) returns (n: nat, data: nat)
    requires At(pool, at, v) && v.Arr?
    ensures n == |v.items| && data == ItemsData(v.items)
  {
    hide *;
    AtBound(pool, at, v);
    FirstItem(pool, at, v);
    ItemCursorEnd(pool, at, v.items, 0, pool[at].firstChild);
    ItemsDataEnds(v.items);
    n, data := 0, 0;
    var r := pool[at].firstChild;
    while r != -1
      invariant n <= |v.items| && ItemCursor(pool, at, v.items, n, r)
      invariant r == -1 <==> n == |v.items|
      invariant data + ItemsData(v.items[n..]) == ItemsData(v.items)
      decreases |v.items| - n
    {
      ItemStep(pool, at, v.items, n, r);
      NodeFacts(pool, r, v.items[n]);
      ItemsDataStep(v.items, n);
      data := data + RawLen(pool[r].tok);
      n := n + 1;
      r := pool[r].nextSibling;
      ItemCursorEnd(pool, at, v.items, n, r);
    }
  }

  lemma KeysDataCons(m: Member, rest: seq<Member>)
    ensures KeysData([m] + rest) == RawLen(m.key) + KeysData(rest)
  {
    assert ([m] + rest)[1..] == rest;
  }

  lemma KeysDataStep(ms: seq<Member>, i: nat)
    requires i < |ms|
    ensures KeysData(ms[i..]) == RawLen(ms[i].key) + KeysData(ms[i + 1..])
  {
    hide *;
    assert ms[i..] == [ms[i]] + ms[i + 1..];
    KeysDataCons(ms[i], ms[i + 1..]);
  }

  lemma KeysDataEnds(ms: seq<Member>)
    ensures ms[0..] == ms && KeysData(ms[|ms|..]) == 0
  {
  }

  /** Counts the members of `properties` or `patternProperties` and the bytes of their keys. */
  method CountProperties(pool: seq<Node>, at: nat, ghost v: Tree) returns (n: nat, data: nat)
    requires At(pool, at, v) && v.Obj?
    ensures n == |v.members| && data == KeysData(v.members)
  {
    hide *;
    AtBound(pool, at, v);
    FirstMember(pool, at, v);
    CursorEnd(pool, at, v.members, 0, pool[at].firstChild);
    KeysDataEnds(v.members);
    n, data := 0, 0;
    var p := pool[at].firstChild;
    while p != -1
      invariant n <= |v.members| && MemberCursor(pool, at, v.members, n, p)
      invariant p == -1 <==> n == |v.members|
      invariant data + KeysData(v.members[n..]) == KeysData(v.members)
      decreases |v.members| - n
    {
      MemberStep(pool, at, v.members, n, p);
      KeyFacts(pool, p, v.members[n]);
      KeysDataStep(v.members, n);
      data := data + RawLen(pool[p].tok);
      n := n + 1;
      p := pool[p + 1].nextSibling;
      CursorEnd(pool, at, v.members, n, p);
    }
  }

  /** What one member adds to the running counters of pass 1. */
  datatype Tally = Tally(own: nat, data: nat, props: nat, pats: nat, add: bool)

  function Plus(a: Tally, b: Tally): Tally {
    Tally(a.own + b.own, a.data + b.data, a.props + b.props, a.pats + b.pats, a.add || b.add)
  }

  function MemberTally(k: Kw, v: Tree): Tally {
    Tally(if IsPropsKw(k) then 0 else Cost(k, v), Reserve(k, v),
          if k == KProperties && IsObject(v) then Entries(v) else 0,
          if k == KPatternProperties && IsObject(v) then Entries(v) else 0,
          k == KAdditionalProperties)
  }

  function TallyUpTo(ms: seq<Member>, i: nat): Tally
    requires i <= |ms|
  {
    if i == 0 then Tally(0, 0, 0, 0, false)
    else Plus(TallyUpTo(ms, i - 1), MemberTally(KwOf(ms[i - 1]), ms[i - 1].val))
  }

  /** The cases of pass 1's switch. */
  method TallyMember(pool: seq<Node>, key: nat, ghost m: Member) returns (t: Tally)
    requires key + 1 < |pool| && KeyAt(pool, key, m) && At(pool, key + 1, m.val)
    ensures t == MemberTally(KwOf(m), m.val)
  {
    hide KwOfToken;
    hide At;
    hide KeyAt;
    hide NodeValidSub;
    hide ValidSub;
    hide NodeTrue;
    hide IsTrue;
    hide ItemsData;
    hide KeysData;
    hide RawLen;
    hide TokenOf;
    KeyFacts(pool, key, m);
    NodeFacts(pool, key + 1, m.val);
    var val := pool[key + 1];
    var k := KwOfToken(pool[key].tok);
    if k == KType || IsIntKw(k) {
      return Tally(5, 0, 0, 0, false);
    } else if IsNumKw(k) {
      return Tally(9, 0, 0, 0, false);
    } else if k == KUniqueItems {
      return Tally(if NodeTrue(val) then 1 else 0, 0, 0, 0, false);
    } else if IsSubKw(k) {
      return Tally(if !NodeValidSub(val) then 0 else if k == KIf then 13 else 5, 0, 0, 0, false);
    } else if IsStrKw(k) {
      return Tally(9, RawLen(val.tok), 0, 0, false);
    } else if IsManyKw(k) {
      if val.kind == AstArray {
        var n := CountItems(pool, key + 1, m.val);
        return Tally(5 + 4 * n, 0, 0, 0, false);
      }
    } else if k == KRequired {
      if val.kind == AstArray {
        var n, data := CountRequired(pool, key + 1, m.val);
        return Tally(5 + 8 * n, data, 0, 0, false);
      }
    } else if k == KProperties {
      if val.kind == AstObject {
        var n, data := CountProperties(pool, key + 1, m.val);
        return Tally(0, data, n, 0, false);
      }
    } else if k == KPatternProperties {
      if val.kind == AstObject {
        var n, data := CountProperties(pool, key + 1, m.val);
        return Tally(0, data, 0, n, false);
      }
    } else if k == KAdditionalProperties {
      return Tally(0, 0, 0, 0, true);
    }
    t := Tally(0, 0, 0, 0, false);
  }

  lemma MemberTallyCost(k: Kw, v: Tree)
    ensures MemberTally(k, v).own + 12 * MemberTally(k, v).props + 12 * MemberTally(k, v).pats == Cost(k, v)
  {
  }

  lemma MemberTallyParts(k: Kw, v: Tree)
    ensures MemberTally(k, v).data == Reserve(k, v)
    ensures MemberTally(k, v).props == if k == KProperties && IsObject(v) then Entries(v) else 0
    ensures MemberTally(k, v).pats == if k == KPatternProperties && IsObject(v) then Entries(v) else 0
    ensures MemberTally(k, v).add == (k == KAdditionalProperties)
  {
    hide Reserve;
    hide Cost;
  }

  lemma {:induction false} TallyIs(ms: seq<Member>, i: nat)
    requires i <= |ms|
    ensures TallyUpTo(ms, i).own + 12 * TallyUpTo(ms, i).props + 12 * TallyUpTo(ms, i).pats == CostsUpTo(ms, i)
    ensures TallyUpTo(ms, i).data == ReserveUpTo(ms, i)
    ensures TallyUpTo(ms, i).props == PropCount(ms, KProperties, i)
    ensures TallyUpTo(ms, i).pats == PropCount(ms, KPatternProperties, i)
    ensures TallyUpTo(ms, i).add == HasAdditional(ms, i)
  {
    hide KwOf;
    hide Cost;
    hide Reserve;
    hide Entries;
    hide IsObject;
    hide MemberTally;
    if i > 0 {
      TallyIs(ms, i - 1);
      MemberTallyParts(KwOf(ms[i - 1]), ms[i - 1].val);
      MemberTallyCost(KwOf(ms[i - 1]), ms[i - 1].val);
    }
  }

  /** The loop over the members of a schema object. */
  method TallyNode(pool: seq<Node>, at: nat, ghost t: Tree) returns (a: Tally)
    requires At(pool, at, t) && t.Obj?
    ensures a == TallyUpTo(t.members, |t.members|)
  {
    hide *;
    ghost var ms := t.members;
    AtBound(pool, at, t);
    FirstMember(pool, at, t);
    CursorEnd(pool, at, ms, 0, pool[at].firstChild);
    a := Tally(0, 0, 0, 0, false);
    TallyZero(ms);
    ghost var i := 0;
    var key := pool[at].firstChild;
    while key != -1
      invariant i <= |ms| && MemberCursor(pool, at, ms, i, key)
      invariant key == -1 <==> i == |ms|
      invariant a == TallyUpTo(ms, i)
      decreases |ms| - i
    {
      MemberStep(pool, at, ms, i, key);
      var one := TallyMember(pool, key, ms[i]);
      TallyStep(ms, i);
      a := Plus(a, one);
      key := pool[key + 1].nextSibling;
      i := i + 1;
      CursorEnd(pool, at, ms, i, key);
    }
  }

  lemma TallyZero(ms: seq<Member>)
    ensures TallyUpTo(ms, 0) == Tally(0, 0, 0, 0, false)
  {
  }

  lemma TallyStep(ms: seq<Member>, i: nat)
    requires i < |ms|
    ensures TallyUpTo(ms, i + 1) == Plus(TallyUpTo(ms, i), MemberTally(KwOf(ms[i]), ms[i].val))
  {
    hide KwOf;
    hide MemberTally;
  }

  /** The size of one node's block and the pool bytes of its strings. */
  method NodeSizes(pool: seq<Node>, at: nat, ghost t: Tree) returns (own: nat, data: nat)
    requires At(pool, at, t)
    ensures own == NodeSize(t) && data == NodeReserve(t)
  {
    hide At;
    hide TallyUpTo;
    hide CostsUpTo;
    hide ReserveUpTo;
    hide PropCount;
    hide HasAdditional;
    hide NodeFalse;
    hide NodeTrue;
    NodeFacts(pool, at, t);
    if NodeFalse(pool[at]) {
      return 1, 0;
    }
    if NodeTrue(pool[at]) || pool[at].kind != AstObject {
      return 1, 0;
    }
    var a := TallyNode(pool, at, t);
    TallyIs(t.members, |t.members|);
    own := a.own;
    if a.props > 0 || a.pats > 0 || a.add {
      own := own + 13 + 12 * a.props + 12 * a.pats;
    }
    own := own + 1;
    data := a.data;
  }

  // ---------------------------------------------------------------- the recursion

  /** Nodes that laying out `t` at `at` may give an offset. */
  ghost predicate Touches(t: Tree, at: nat, p: nat) {
    p == at || (p >= at && Covers(Visits(t), p - at))
  }

  lemma TouchesInside(t: Tree, at: nat, p: nat)
    requires Touches(t, at, p)
    ensures at <= p < at + Len(t)
  {
    hide Visits;
    hide Covers;
    VisitsWithin(t);
    if p > at && Len(t) <= p - at {
      OutsideNotCovered(Visits(t), 1, Len(t), p - at);
    }
  }

  /** Only `at` and the first `k` visited subschemas changed. */
  ghost predicate ChangedUpTo(before: seq<nat>, after: seq<nat>, at: nat, t: Tree, k: nat)
    requires k <= |Visits(t)|
  {
    && |before| == |after|
    && forall p :: 0 <= p < |after| && p != at && !(p >= at && Covers(Visits(t)[..k], p - at)) ==> after[p] == before[p]
  }

  ghost predicate Fresh(offs: seq<nat>, lo: nat, hi: nat) {
    forall p :: lo <= p < hi ==> Unset(offs, p)
  }

  lemma CoversPrefix(vs: seq<Ref>, k: nat, q: nat)
    requires k < |vs|
    ensures Covers(vs[..k + 1], q) <==> Covers(vs[..k], q) || vs[k].rel <= q < vs[k].rel + Len(vs[k].sub)
  {
    hide Len;
    assert vs[..k + 1] == vs[..k] + [vs[k]];
  }

  /** Visited subschema `k` is still without offsets after the first `k` were laid out. */
  lemma StillFresh(before: seq<nat>, after: seq<nat>, at: nat, t: Tree, k: nat)
    requires k < |Visits(t)| && ChangedUpTo(before, after, at, t, k) && Fresh(before, at, at + Len(t))
    ensures Fresh(after, at + Visit(t, k).rel, at + Visit(t, k).rel + Len(Visit(t, k).sub))
  {
    hide Visits;
    hide Len;
    hide Visit;
    var v := Visit(t, k);
    forall p | at + v.rel <= p < at + v.rel + Len(v.sub) ensures Unset(after, p) {
      assert Unset(before, p);
      PrefixBelow(t, k, p - at);
    }
  }

  lemma PrefixBelow(t: Tree, k: nat, q: nat)
    requires k < |Visits(t)| && Visit(t, k).rel <= q
    ensures !Covers(Visits(t)[..k], q)
  {
    hide Visits;
    hide Len;
    forall j | 0 <= j < k ensures !(Visits(t)[j].rel <= q < Visits(t)[j].rel + Len(Visits(t)[j].sub)) {
      VisitsOrdered(t, j, k);
    }
  }

  lemma ChangedStep(before: seq<nat>, mid: seq<nat>, after: seq<nat>, at: nat, t: Tree, k: nat)
    requires k < |Visits(t)| && ChangedUpTo(before, mid, at, t, k) && |after| == |mid|
    requires forall p :: 0 <= p < |after| && !Touches(Visit(t, k).sub, at + Visit(t, k).rel, p) ==> after[p] == mid[p]
    ensures ChangedUpTo(before, after, at, t, k + 1)
  {
    hide Visits;
    hide Len;
    hide Touches;
    var v := Visit(t, k);
    forall p | 0 <= p < |after| && p != at && !(p >= at && Covers(Visits(t)[..k + 1], p - at))
      ensures after[p] == before[p]
    {
      if p >= at {
        CoversPrefix(Visits(t), k, p - at);
      }
      if Touches(v.sub, at + v.rel, p) {
        TouchesInside(v.sub, at + v.rel, p);
      }
    }
  }

  lemma SubUnchanged(mid: seq<nat>, after: seq<nat>, at: nat, t: Tree, k: nat)
    requires k < |Visits(t)| && |after| == |mid|
    requires forall p :: 0 <= p < |after| && !Touches(Visit(t, k).sub, at + Visit(t, k).rel, p) ==> after[p] == mid[p]
    ensures SameOffsets(mid, after, at, at + Visit(t, k).rel)
  {
    hide Visits;
    hide Touches;
    hide Visit;
    var v := Visit(t, k);
    forall p | at <= p < at + v.rel && p < |mid| ensures mid[p] == after[p] {
      if Touches(v.sub, at + v.rel, p) {
        TouchesInside(v.sub, at + v.rel, p);
      }
    }
  }

  /** After the last subschema, the passed-by entries still have no offset. */
  lemma SkipsStay(before: seq<nat>, after: seq<nat>, at: nat, t: Tree)
    requires ChangedUpTo(before, after, at, t, |Visits(t)|) && Fresh(before, at, at + Len(t))
    ensures SkipsUnset(after, at, t)
  {
    hide Visits;
    hide KwOf;
    hide EntryPos;
    hide PosOf;
    hide Covers;
    hide ValidSub;
    hide Fresh;
    hide Unset;
    if IsObject(t) {
      var ms := t.members;
      forall i | 0 <= i < |ms| && IsManyKw(KwOf(ms[i])) && IsArray(ms[i].val)
        ensures EntriesUnset(after, at, PosOf(ms, i) + 2, ms[i].val.items)
      {
        forall j | 0 <= j < |ms[i].val.items| && !ValidSub(ms[i].val.items[j])
          ensures Unset(after, at + EntryPos(PosOf(ms, i) + 2, ms[i].val.items, j))
        {
          EntryStays(before, after, at, t, i, j);
        }
      }
    }
  }

  lemma EntryStays(before: seq<nat>, after: seq<nat>, at: nat, t: Tree, i: nat, j: nat)
    requires ChangedUpTo(before, after, at, t, |Visits(t)|) && Fresh(before, at, at + Len(t))
    requires IsObject(t) && t.Obj? && i < |t.members|
    requires IsManyKw(KwOf(t.members[i])) && IsArray(t.members[i].val) && t.members[i].val.Arr?
    requires j < |t.members[i].val.items| && !ValidSub(t.members[i].val.items[j])
    ensures Unset(after, at + EntryPos(PosOf(t.members, i) + 2, t.members[i].val.items, j))
  {
    hide Visits;
    hide KwOf;
    hide EntryPos;
    hide Covers;
    hide ValidSub;
    var q := EntryPos(PosOf(t.members, i) + 2, t.members[i].val.items, j);
    EntryNotVisited(t, i, j);
    MemberPosIs(1, t.members, i);
    PosOfBound(t.members, i);
    EntryPosAfter(PosOf(t.members, i) + 2, t.members[i].val.items, j);
    assert Visits(t)[..|Visits(t)|] == Visits(t);
    assert Unset(before, at + q);
  }

  /** `calculate_schema_size`: assigns an offset to every schema node it visits and returns
      the size of their code and the pool bytes to reserve. */
  method CalculateSchemaSize(pool: seq<Node>, at: nat, offs: array<nat>, base: nat, dataSize: nat, ghost t: Tree)
    returns (size: nat, data: nat)
    requires At(pool, at, t) && offs.Length == |pool| && Fresh(offs[..], at, at + Len(t))
    modifies offs
    ensures size == Size1(t) && data == dataSize + Data1(t)
    ensures Laid(offs[..], at, t, base)
    ensures forall p :: 0 <= p < offs.Length && !Touches(t, at, p) ==> offs[p] == old(offs[p])
    decreases Len(t)
  {
    hide *;
    AtBound(pool, at, t);
    ghost var before := offs[..];
    offs[at] := base;
    var own, reserve := NodeSizes(pool, at, t);
    size, data := own, dataSize + reserve;
    var vs := SubschemasOf(pool, at, t);
    ChangedStart(before, offs[..], at, t);
    LaidStart(offs[..], at, t, base);
    SizesStart(t);
    var k := 0;
    while k < |vs|
      invariant k <= |vs| == |Visits(t)|
      invariant offs[at] == base
      invariant size == NodeSize(t) + Size1UpTo(t, k)
      invariant data == dataSize + NodeReserve(t) + Data1UpTo(t, k)
      invariant ChangedUpTo(before, offs[..], at, t, k)
      invariant LaidVisits(offs[..], at, t, base, k)
    {
      ghost var v := Visit(t, k);
      ghost var mid := offs[..];
      VisitAt(pool, at, t, k);
      VisitNode(at, t, k);
      StillFresh(before, offs[..], at, t, k);
      var subSize, total := CalculateSchemaSize(pool, vs[k], offs, base + size, data, v.sub);
      AfterSub(before, mid, offs[..], at, t, k, base);
      SizesStep(t, k);
      size := size + subSize;
      data := total;
      k := k + 1;
    }
    SkipsStay(before, offs[..], at, t);
    LaidDone(offs[..], at, t, base);
    ChangedDone(before, offs[..], at, t);
    SizesDone(t);
  }

  method SubschemasOf(pool: seq<Node>, at: nat, ghost t: Tree) returns (vs: seq<nat>)
    requires At(pool, at, t)
    ensures vs == NodesOf(at, Visits(t)) && |vs| == |Visits(t)|
  {
    hide At;
    hide VisitsFrom;
    hide HasIf;
    hide NodesOf;
    NodeFacts(pool, at, t);
    if pool[at].kind == AstObject {
      vs := VisitSubschemas(pool, at, t);
    } else {
      vs := [];
      NodesOne(at, Ref(0, t));
    }
  }

  lemma VisitNode(at: nat, t: Tree, k: nat)
    requires k < |Visits(t)|
    ensures NodesOf(at, Visits(t))[k] == at + Visit(t, k).rel
    ensures Len(Visit(t, k).sub) < Len(t)
  {
    hide Visits;
  }

  lemma ChangedStart(before: seq<nat>, after: seq<nat>, at: nat, t: Tree)
    requires at < |before| == |after| && after == before[at := after[at]]
    ensures ChangedUpTo(before, after, at, t, 0)
  {
    hide Visits;
  }

  lemma LaidStart(offs: seq<nat>, at: nat, t: Tree, base: nat)
    ensures LaidVisits(offs, at, t, base, 0)
  {
  }

  lemma SizesStart(t: Tree)
    ensures Size1UpTo(t, 0) == 0 && Data1UpTo(t, 0) == 0
  {
  }

  lemma SizesStep(t: Tree, k: nat)
    requires k < |Visits(t)|
    ensures Size1UpTo(t, k + 1) == Size1UpTo(t, k) + Size1(Visit(t, k).sub)
    ensures Data1UpTo(t, k + 1) == Data1UpTo(t, k) + Data1(Visit(t, k).sub)
  {
    hide Visits;
    hide Size1;
    hide Data1;
  }

  lemma SizesDone(t: Tree)
    ensures Size1(t) == NodeSize(t) + Size1UpTo(t, |Visits(t)|)
    ensures Data1(t) == NodeReserve(t) + Data1UpTo(t, |Visits(t)|)
  {
    hide Visits;
    hide NodeSize;
    hide NodeReserve;
  }

  lemma AfterSub(before: seq<nat>, mid: seq<nat>, after: seq<nat>, at: nat, t: Tree, k: nat, base: nat)
    requires k < |Visits(t)| && ChangedUpTo(before, mid, at, t, k) && LaidVisits(mid, at, t, base, k)
    requires at < |mid| == |after|
    requires forall p :: 0 <= p < |after| && !Touches(Visit(t, k).sub, at + Visit(t, k).rel, p) ==> after[p] == mid[p]
    requires Laid(after, at + Visit(t, k).rel, Visit(t, k).sub, base + NodeSize(t) + Size1UpTo(t, k))
    ensures ChangedUpTo(before, after, at, t, k + 1) && LaidVisits(after, at, t, base, k + 1)
    ensures after[at] == mid[at]
  {
    hide Visits;
    hide Laid;
    hide Touches;
    hide ChangedUpTo;
    hide NodeSize;
    hide Size1UpTo;
    ChangedStep(before, mid, after, at, t, k);
    SubUnchanged(mid, after, at, t, k);
    LaidVisitsFrame(mid, after, at, t, base, k, Visit(t, k).rel);
  }

  lemma LaidDone(offs: seq<nat>, at: nat, t: Tree, base: nat)
    requires at < |offs| && offs[at] == base && SkipsUnset(offs, at, t) && LaidVisits(offs, at, t, base, |Visits(t)|)
    ensures Laid(offs, at, t, base)
  {
    hide Visits;
    hide SkipsUnset;
    hide LaidVisits;
  }

  lemma ChangedDone(before: seq<nat>, after: seq<nat>, at: nat, t: Tree)
    requires ChangedUpTo(before, after, at, t, |Visits(t)|)
    ensures forall p :: 0 <= p < |after| && !Touches(t, at, p) ==> after[p] == before[p]
  {
    hide Visits;
    hide Covers;
    assert Visits(t)[..|Visits(t)|] == Visits(t);
  }
}
