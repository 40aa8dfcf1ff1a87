/** Structural equality of pool nodes, `ast_nodes_equal` (src/validation/validate_helpers.c). */
module Equality {
  import opened Bytes
  import opened Ast
  import opened Unescape
  import opened Keywords
  import opened Semantics
  import opened Layout
  import opened Code
  import opened Walk
  import opened Meaning

  /** The leaf cases of the switch. */
  method LeavesEqual(env: Env, a: Token, b: Token) returns (eq: bool)
    requires WfToken(a) && WfToken(b)
    ensures eq == SameLeaf(env, a, b)
  {
    if a.kind != b.kind {
      return false;
    }
    match a.kind {
      case TNull => eq := true;
      case TTrue => eq := true;
      case TFalse => eq := true;
      case TNumber =>
        if a.raw == b.raw {
          eq := true;
        } else if |a.raw| < 128 && |b.raw| < 128 {
          eq := env.eq(env.strtod(a.raw), env.strtod(b.raw));
        } else {
          eq := false;
        }
      case TString =>
        NothingStripped(a);
        NothingStripped(b);
        eq := StripQuotes(a.raw) == StripQuotes(b.raw);
      case _ => eq := false;
    }
  }

  // ---------------------------------------------------------------- counting live members

  lemma LiveFrom(ms: seq<Member>, i: nat)
    requires i < |ms|
    ensures LiveCount(ms[i..]) == (if ms[i].keySkip then 0 else 1) + LiveCount(ms[i + 1..])
  {
    assert ms[i..][0] == ms[i] && ms[i..][1..] == ms[i + 1..];
  }

  lemma LiveEnds(ms: seq<Member>)
    ensures ms[0..] == ms && LiveCount(ms[|ms|..]) == 0
  {
  }

  /** The loop that counts members that are not duplicates. */
  method CountLive(pool: seq<Node>, at: nat, ghost d: Tree) returns (n: nat)
    requires At(pool, at, d) && d.Obj?
    ensures n == LiveCount(d.members)
  {
    hide *;
    ghost var ms := d.members;
    AtBound(pool, at, d);
    FirstMember(pool, at, d);
    n := 0;
    LiveEnds(ms);
    var c := pool[at].firstChild;
    ghost var i := 0;
    CursorEnd(pool, at, ms, 0, c);
    while c != -1
      invariant i <= |ms| && MemberCursor(pool, at, ms, i, c)
      invariant c == -1 <==> i == |ms|
      invariant n + LiveCount(ms[i..]) == LiveCount(ms)
      decreases |ms| - i
    {
      MemberStep(pool, at, ms, i, c);
      KeyFacts(pool, c, ms[i]);
      LiveFrom(ms, i);
      if pool[c].kind != AstSkipped {
        n := n + 1;
      }
      c := pool[pool[c].nextSibling].nextSibling;
      i := i + 1;
      CursorEnd(pool, at, ms, i, c);
    }
  }

  // ---------------------------------------------------------------- finding a key

  method FindKey(pool: seq<Node>, at: nat, raw: bytes, ghost d: Tree) returns (val: int, ghost j: nat)
    requires At(pool, at, d) && d.Obj? && Sane(d)
    ensures j == FirstLive(d.members, raw)
    ensures val == (if j < |d.members| then at + PosOf(d.members, j) + 1 else -1)
    ensures j < |d.members| ==> At(pool, at + PosOf(d.members, j) + 1, d.members[j].val)
  {
    hide *;
    ghost var ms := d.members;
    AtBound(pool, at, d);
    FirstMember(pool, at, d);
    var c := pool[at].firstChild;
    j := 0;
    FoundNothing(ms, raw);
    CursorEnd(pool, at, ms, 0, c);
    while c != -1
      invariant j <= |ms| && MemberCursor(pool, at, ms, j, c)
      invariant c == -1 <==> j == |ms|
      invariant NotBefore(ms, raw, j)
      decreases |ms| - j
    {
      MemberStep(pool, at, ms, j, c);
      KeyFacts(pool, c, ms[j]);
      SaneKey(d, j);
      NothingStripped(ms[j].key);
      NotBeforeStep(ms, raw, j);
      if pool[c].kind != AstSkipped && StripQuotes(pool[c].tok.raw) == raw {
        val := pool[c].nextSibling;
        return;
      }
      c := pool[pool[c].nextSibling].nextSibling;
      j := j + 1;
      CursorEnd(pool, at, ms, j, c);
    }
    NotBeforeEnd(ms, raw);
    val := -1;
  }

  ghost predicate NotBefore(ms: seq<Member>, raw: bytes, j: nat) {
    j <= |ms| && forall l :: 0 <= l < j ==> ms[l].keySkip || ms[l].key.raw != raw
  }

  lemma FoundNothing(ms: seq<Member>, raw: bytes)
    ensures NotBefore(ms, raw, 0)
  {
  }

  lemma NotBeforeStep(ms: seq<Member>, raw: bytes, j: nat)
    requires NotBefore(ms, raw, j) && j < |ms|
    ensures !ms[j].keySkip && ms[j].key.raw == raw ==> j == FirstLive(ms, raw)
    ensures ms[j].keySkip || ms[j].key.raw != raw ==> NotBefore(ms, raw, j + 1)
  {
    var f := FirstLive(ms, raw);
    assert f > j ==> ms[j].keySkip || ms[j].key.raw != raw;
  }

  lemma NotBeforeEnd(ms: seq<Member>, raw: bytes)
    requires NotBefore(ms, raw, |ms|)
    ensures FirstLive(ms, raw) == |ms|
  {
  }

  // ---------------------------------------------------------------- containers

  ghost predicate SameItemsUpTo(env: Env, xs: seq<Tree>, ys: seq<Tree>, i: nat) {
    i <= |xs| && i <= |ys| && forall j :: 0 <= j < i ==> SameTree(env, xs[j], ys[j])
  }

  lemma ItemsStart(env: Env, xs: seq<Tree>, ys: seq<Tree>)
    ensures SameItemsUpTo(env, xs, ys, 0)
  {
    hide SameTree;
  }

  lemma ItemsAdvance(env: Env, xs: seq<Tree>, ys: seq<Tree>, i: nat)
    requires SameItemsUpTo(env, xs, ys, i) && i < |xs| && i < |ys| && SameTree(env, xs[i], ys[i])
    ensures SameItemsUpTo(env, xs, ys, i + 1)
  {
    hide SameTree;
  }

  lemma ItemsSame(env: Env, a: Tree, b: Tree)
    requires a.Arr? && b.Arr? && |a.items| == |b.items| && SameItemsUpTo(env, a.items, b.items, |a.items|)
    ensures SameTree(env, a, b)
  {
    hide SameLeaf;
  }

  lemma ItemsDiffer(env: Env, a: Tree, b: Tree, i: nat)
    requires a.Arr? && b.Arr? && i < |a.items| && i < |b.items| && !SameTree(env, a.items[i], b.items[i])
    ensures !SameTree(env, a, b)
  {
    hide SameLeaf;
  }

  lemma LengthsDiffer(env: Env, a: Tree, b: Tree)
    requires a.Arr? && b.Arr? && |a.items| != |b.items|
    ensures !SameTree(env, a, b)
  {
    hide SameLeaf;
  }

  /** The first live member with the key has an equal value. */
  ghost predicate Matched(env: Env, m: Member, bs: seq<Member>) {
    var j := FirstLive(bs, m.key.raw);
    j < |bs| && SameTree(env, m.val, bs[j].val)
  }

  lemma SameObjects(env: Env, a: Tree, b: Tree)
    requires a.Obj? && b.Obj?
    ensures SameTree(env, a, b) <==>
            LiveCount(a.members) == LiveCount(b.members)
            && forall i :: 0 <= i < |a.members| && !a.members[i].keySkip ==> Matched(env, a.members[i], b.members)
  {
    hide LiveCount;
    hide SameLeaf;
    hide FirstLive;
  }

  ghost predicate MatchedUpTo(env: Env, ms: seq<Member>, bs: seq<Member>, i: nat) {
    i <= |ms| && forall l :: 0 <= l < i && !ms[l].keySkip ==> Matched(env, ms[l], bs)
  }

  lemma MatchedStart(env: Env, ms: seq<Member>, bs: seq<Member>)
    ensures MatchedUpTo(env, ms, bs, 0)
  {
    hide Matched;
  }

  lemma MatchedStep(env: Env, ms: seq<Member>, bs: seq<Member>, i: nat)
    requires MatchedUpTo(env, ms, bs, i) && i < |ms| && (ms[i].keySkip || Matched(env, ms[i], bs))
    ensures MatchedUpTo(env, ms, bs, i + 1)
  {
    hide Matched;
  }

  lemma Unmatched(env: Env, a: Tree, b: Tree, i: nat)
    requires a.Obj? && b.Obj? && i < |a.members| && !a.members[i].keySkip && !Matched(env, a.members[i], b.members)
    ensures !SameTree(env, a, b)
  {
    hide *;
    SameObjects(env, a, b);
  }

  lemma AllMatched(env: Env, a: Tree, b: Tree)
    requires a.Obj? && b.Obj? && MatchedUpTo(env, a.members, b.members, |a.members|)
    ensures SameTree(env, a, b) <==> LiveCount(a.members) == LiveCount(b.members)
  {
    hide Matched;
    hide SameTree;
    hide LiveCount;
    SameObjects(env, a, b);
  }

  lemma Smaller(t: Tree, i: nat)
    requires (t.Arr? && i < |t.items|) || (t.Obj? && i < |t.members|)
    ensures t.Arr? ==> Len(t.items[i]) < Len(t)
    ensures t.Obj? ==> Len(t.members[i].val) < Len(t)
  {
    if t.Arr? {
      ItemLen(t.items, i);
    } else {
      MemberLen(t.members, i);
    }
  }

  lemma {:induction false} ItemLen(items: seq<Tree>, i: nat)
    requires i < |items|
    ensures Len(items[i]) <= ItemsLen(items)
  {
    if i > 0 {
      ItemLen(items[1..], i - 1);
    }
  }

  lemma {:induction false} MemberLen(ms: seq<Member>, i: nat)
    requires i < |ms|
    ensures Len(ms[i].val) < MembersLen(ms)
  {
    if i > 0 {
      MemberLen(ms[1..], i - 1);
    }
  }

  // ---------------------------------------------------------------- the method

  /** `ast_nodes_equal`. */
  method NodesEqual(env: Env, pool: seq<Node>, i: nat, j: nat, ghost a: Tree, ghost b: Tree) returns (eq: bool)
    requires At(pool, i, a) && Sane(a) && At(pool, j, b) && Sane(b)
    ensures eq == SameTree(env, a, b)
    decreases Len(a), 1
  {
    hide *;
    SaneNode(pool, i, a);
    SaneNode(pool, j, b);
    KindsDiffer(env, a, b);
    if pool[i].kind != pool[j].kind {
      return false;
    }
    match pool[i].kind {
      case AstLeaf =>
        LeafCase(env, a, b);
        eq := LeavesEqual(env, pool[i].tok, pool[j].tok);
      case AstArray => eq := ItemsEqual(env, pool, i, j, a, b);
      case AstObject => eq := MembersEqual(env, pool, i, j, a, b);
      case _ => eq := false;
    }
  }

  lemma KindsDiffer(env: Env, a: Tree, b: Tree)
    ensures SameTree(env, a, b) ==> (a.Leaf? <==> b.Leaf?) && (a.Arr? <==> b.Arr?) && (a.Obj? <==> b.Obj?)
  {
    hide SameLeaf;
    hide LiveCount;
  }

  lemma LeafCase(env: Env, a: Tree, b: Tree)
    requires a.Leaf? && b.Leaf?
    ensures SameTree(env, a, b) == SameLeaf(env, a.tok, b.tok)
  {
    hide SameLeaf;
  }

  method ItemsEqual(env: Env, pool: seq<Node>, i: nat, j: nat, ghost a: Tree, ghost b: Tree) returns (eq: bool)
    requires At(pool, i, a) && Sane(a) && At(pool, j, b) && Sane(b) && a.Arr? && b.Arr?
    ensures eq == SameTree(env, a, b)
    decreases Len(a), 0
  {
    hide *;
    ghost var xs, ys := a.items, b.items;
    AtBound(pool, i, a);
    AtBound(pool, j, b);
    FirstItem(pool, i, a);
    FirstItem(pool, j, b);
    ItemsStart(env, xs, ys);
    var c1, c2 := pool[i].firstChild, pool[j].firstChild;
    ghost var k := 0;
    ItemCursorEnd(pool, i, xs, 0, c1);
    ItemCursorEnd(pool, j, ys, 0, c2);
    while c1 != -1 && c2 != -1
      invariant k <= |xs| && k <= |ys|
      invariant ItemCursor(pool, i, xs, k, c1) && ItemCursor(pool, j, ys, k, c2)
      invariant (c1 == -1 <==> k == |xs|) && (c2 == -1 <==> k == |ys|)
      invariant SameItemsUpTo(env, xs, ys, k)
      decreases |xs| - k
    {
      ItemStep(pool, i, xs, k, c1);
      ItemStep(pool, j, ys, k, c2);
      SaneItem(a, k);
      SaneItem(b, k);
      Smaller(a, k);
      var same := NodesEqual(env, pool, c1, c2, xs[k], ys[k]);
      if !same {
        ItemsDiffer(env, a, b, k);
        return false;
      }
      ItemsAdvance(env, xs, ys, k);
      c1 := pool[c1].nextSibling;
      c2 := pool[c2].nextSibling;
      k := k + 1;
      ItemCursorEnd(pool, i, xs, k, c1);
      ItemCursorEnd(pool, j, ys, k, c2);
    }
    eq := c1 == -1 && c2 == -1;
    if eq {
      ItemsSame(env, a, b);
    } else {
      LengthsDiffer(env, a, b);
    }
  }

  method MembersEqual(env: Env, pool: seq<Node>, i: nat, j: nat, ghost a: Tree, ghost b: Tree) returns (eq: bool)
    requires At(pool, i, a) && Sane(a) && At(pool, j, b) && Sane(b) && a.Obj? && b.Obj?
    ensures eq == SameTree(env, a, b)
    decreases Len(a), 0
  {
    hide *;
    ghost var ms, bs := a.members, b.members;
    AtBound(pool, i, a);
    FirstMember(pool, i, a);
    MatchedStart(env, ms, bs);
    LiveEnds(ms);
    var count1 := 0;
    var c1 := pool[i].firstChild;
    ghost var k := 0;
    CursorEnd(pool, i, ms, 0, c1);
    while c1 != -1
      invariant k <= |ms| && MemberCursor(pool, i, ms, k, c1)
      invariant c1 == -1 <==> k == |ms|
      invariant count1 + LiveCount(ms[k..]) == LiveCount(ms)
      invariant MatchedUpTo(env, ms, bs, k)
      decreases |ms| - k
    {
      MemberStep(pool, i, ms, k, c1);
      KeyFacts(pool, c1, ms[k]);
      SaneKey(a, k);
      LiveFrom(ms, k);
      Smaller(a, k);
      var val1 := pool[c1].nextSibling;
      if pool[c1].kind != AstSkipped {
        count1 := count1 + 1;
        NothingStripped(ms[k].key);
        var found, at2 := FindKey(pool, j, StripQuotes(pool[c1].tok.raw), b);
        MatchedIs(env, ms[k], bs);
        if found == -1 {
          Unmatched(env, a, b, k);
          return false;
        }
        FoundLive(bs, ms[k].key.raw, at2);
        SaneKey(b, at2);
        var same := NodesEqual(env, pool, val1, found, ms[k].val, bs[at2].val);
        if !same {
          Unmatched(env, a, b, k);
          return false;
        }
      }
      MatchedStep(env, ms, bs, k);
      c1 := pool[val1].nextSibling;
      k := k + 1;
      CursorEnd(pool, i, ms, k, c1);
    }
    var count2 := CountLive(pool, j, b);
    AllMatched(env, a, b);
    eq := count1 == count2;
  }

  lemma FoundLive(ms: seq<Member>, raw: bytes, j: nat)
    requires j == FirstLive(ms, raw) && j < |ms|
    ensures !ms[j].keySkip && ms[j].key.raw == raw
  {
  }

  lemma MatchedIs(env: Env, m: Member, bs: seq<Member>)
    ensures FirstLive(bs, m.key.raw) <= |bs|
    ensures Matched(env, m, bs) <==>
            FirstLive(bs, m.key.raw) < |bs| && SameTree(env, m.val, bs[FirstLive(bs, m.key.raw)].val)
  {
    hide SameTree;
  }

  /** No live key of an object is repeated. */
  ghost predicate DistinctKeys(ms: seq<Member>) {
    forall i, j :: 0 <= i < j < |ms| && !ms[i].keySkip && !ms[j].keySkip ==> ms[i].key.raw != ms[j].key.raw
  }

  /** Objects whose live keys are distinct are compared as maps from keys to values. */
  lemma ObjectsAreMaps(env: Env, a: Tree, b: Tree)
    requires a.Obj? && b.Obj? && DistinctKeys(b.members)
    ensures SameTree(env, a, b) <==>
            LiveCount(a.members) == LiveCount(b.members)
            && forall i :: 0 <= i < |a.members| && !a.members[i].keySkip ==>
                 exists j :: 0 <= j < |b.members| && !b.members[j].keySkip
                             && b.members[j].key.raw == a.members[i].key.raw
                             && SameTree(env, a.members[i].val, b.members[j].val)
  {
    hide SameTree;
    hide LiveCount;
    hide Matched;
    SameObjects(env, a, b);
    var ms, bs := a.members, b.members;
    forall i | 0 <= i < |ms| && !ms[i].keySkip
      ensures Matched(env, ms[i], bs) <==>
              exists j :: 0 <= j < |bs| && !bs[j].keySkip && bs[j].key.raw == ms[i].key.raw && SameTree(env, ms[i].val, bs[j].val)
    {
      MatchedOnly(env, ms[i], bs);
    }
  }

  lemma MatchedOnly(env: Env, m: Member, bs: seq<Member>)
    requires DistinctKeys(bs)
    ensures Matched(env, m, bs) <==>
            exists j :: 0 <= j < |bs| && !bs[j].keySkip && bs[j].key.raw == m.key.raw && SameTree(env, m.val, bs[j].val)
  {
    hide SameTree;
  }
}
