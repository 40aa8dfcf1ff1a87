/** Structural equality is an equivalence relation on parsed values without repeated live
    keys, whatever symmetric and transitive relation compares doubles. The object case counts
    keys. */
module EqualityLaws {
  import opened Bytes
  import opened Ast
  import opened Keywords
  import opened Semantics
  import opened Layout
  import opened Meaning
  import opened Equality
  import opened KeywordLaws

  ghost predicate Symmetric(env: Env) {
    forall x: Bits, y: Bits :: env.eq(x, y) ==> env.eq(y, x)
  }

  ghost predicate Transitive(env: Env) {
    forall x: Bits, y: Bits, z: Bits :: env.eq(x, y) && env.eq(y, z) ==> env.eq(x, z)
  }

  /** No object in the value repeats a live key. */
  ghost predicate Distinct(d: Tree)
    decreases d
  {
    match d
    case Leaf(_, _) => true
    case Arr(_, items) => forall i :: 0 <= i < |items| ==> Distinct(items[i])
    case Obj(_, ms) =>
      DistinctKeys(ms) && forall i :: 0 <= i < |ms| && !ms[i].keySkip ==> DistinctMember(ms[i])
  }

  ghost predicate DistinctMember(m: Member)
    decreases m
  {
    assert m.val < m; Distinct(m.val)
  }

  lemma DistinctIn(d: Tree, i: nat)
    requires Distinct(d)
    ensures d.Arr? && i < |d.items| ==> Distinct(d.items[i])
    ensures d.Obj? ==> DistinctKeys(d.members)
    ensures d.Obj? && i < |d.members| && !d.members[i].keySkip ==> Distinct(d.members[i].val)
  {
    hide DistinctKeys;
    if d.Obj? && i < |d.members| && !d.members[i].keySkip {
      assert DistinctMember(d.members[i]);
    }
  }

  // ---------------------------------------------------------------- counting keys

  function LiveKeys(ms: seq<Member>): set<bytes> {
    if ms == [] then {} else LiveKeys(ms[1..]) + (if ms[0].keySkip then {} else {ms[0].key.raw})
  }

  lemma {:induction false} LiveKeyIs(ms: seq<Member>, raw: bytes)
    ensures raw in LiveKeys(ms) <==> exists i :: 0 <= i < |ms| && !ms[i].keySkip && ms[i].key.raw == raw
  {
    if ms != [] {
      LiveKeyIs(ms[1..], raw);
      if raw in LiveKeys(ms[1..]) {
        var i :| 0 <= i < |ms[1..]| && !ms[1..][i].keySkip && ms[1..][i].key.raw == raw;
        assert !ms[i + 1].keySkip && ms[i + 1].key.raw == raw;
      }
      if i :| 0 <= i < |ms| && !ms[i].keySkip && ms[i].key.raw == raw {
        if i > 0 {
          assert ms[1..][i - 1] == ms[i];
        }
      }
    }
  }

  lemma {:induction false} LiveKeysCounted(ms: seq<Member>)
    requires DistinctKeys(ms)
    ensures |LiveKeys(ms)| == LiveCount(ms)
  {
    if ms != [] {
      LiveKeysCounted(ms[1..]);
      LiveKeyIs(ms[1..], ms[0].key.raw);
    }
  }

  lemma SubsetAll<T>(a: set<T>, b: set<T>)
    requires a <= b && |a| == |b|
    ensures a == b
  {
    assert b == a + (b - a);
    assert |b - a| == 0;
  }

  /** Every live key of `b` is a live key of `a`, if every live key of `a` is one of `b` and
      there are as many. */
  lemma KeysBack(ms: seq<Member>, bs: seq<Member>, j: nat) returns (i: nat)
    requires DistinctKeys(ms) && DistinctKeys(bs) && LiveCount(ms) == LiveCount(bs)
    requires forall i :: 0 <= i < |ms| && !ms[i].keySkip ==> ms[i].key.raw in LiveKeys(bs)
    requires j < |bs| && !bs[j].keySkip
    ensures i < |ms| && !ms[i].keySkip && ms[i].key.raw == bs[j].key.raw
  {
    hide LiveKeys;
    hide LiveCount;
    hide DistinctKeys;
    LiveKeysCounted(ms);
    LiveKeysCounted(bs);
    forall raw | raw in LiveKeys(ms) ensures raw in LiveKeys(bs) {
      LiveKeyIs(ms, raw);
    }
    SubsetAll(LiveKeys(ms), LiveKeys(bs));
    LiveKeyIs(bs, bs[j].key.raw);
    LiveKeyIs(ms, bs[j].key.raw);
    i :| 0 <= i < |ms| && !ms[i].keySkip && ms[i].key.raw == bs[j].key.raw;
  }

  lemma MatchedKey(env: Env, m: Member, bs: seq<Member>)
    requires Matched(env, m, bs)
    ensures m.key.raw in LiveKeys(bs)
  {
    hide SameTree;
    hide LiveKeys;
    hide FirstLive;
    LiveKeyIs(bs, m.key.raw);
    assert !bs[FirstLive(bs, m.key.raw)].keySkip;
  }

  lemma MatchIs(env: Env, m: Member, bs: seq<Member>) returns (j: nat)
    requires Matched(env, m, bs)
    ensures j == FirstLive(bs, m.key.raw)
    ensures j < |bs| && !bs[j].keySkip && bs[j].key.raw == m.key.raw && SameTree(env, m.val, bs[j].val)
  {
    hide SameTree;
    hide FirstLive;
    j := FirstLive(bs, m.key.raw);
  }

  lemma MatchBy(env: Env, m: Member, bs: seq<Member>, j: nat)
    requires j == FirstLive(bs, m.key.raw) && j < |bs| && SameTree(env, m.val, bs[j].val)
    ensures Matched(env, m, bs)
  {
    hide SameTree;
    hide FirstLive;
  }

  lemma FirstIsOnly(ms: seq<Member>, i: nat)
    requires DistinctKeys(ms) && i < |ms| && !ms[i].keySkip
    ensures FirstLive(ms, ms[i].key.raw) == i
  {
    hide FirstLive;
    var j := FirstLive(ms, ms[i].key.raw);
    assert j <= i;
  }

  /** Arrays are the same exactly when they are as long and their items are the same in order. */
  lemma SameArrays(env: Env, a: Tree, b: Tree)
    requires a.Arr? && b.Arr?
    ensures SameTree(env, a, b) <==>
            |a.items| == |b.items| && forall i :: 0 <= i < |a.items| ==> SameTree(env, a.items[i], b.items[i])
  {
    hide SameLeaf;
    hide LiveCount;
  }

  // ---------------------------------------------------------------- the laws

  lemma {:induction false} SameReflexive(env: Env, a: Tree)
    requires Sane(a) && Distinct(a)
    ensures SameTree(env, a, a)
    decreases Len(a)
  {
    hide *;
    match a {
      case Leaf(_, tok) =>
        SaneLeaf(a);
        LeafReflexive(env, tok);
        LeafCase(env, a, a);
      case Arr(_, items) =>
        forall i | 0 <= i < |items| ensures SameTree(env, items[i], items[i]) {
          SaneItem(a, i);
          DistinctIn(a, i);
          Smaller(a, i);
          SameReflexive(env, items[i]);
        }
        SameArrays(env, a, a);
      case Obj(_, ms) =>
        forall i | 0 <= i < |ms| && !ms[i].keySkip ensures Matched(env, ms[i], ms) {
          SaneKey(a, i);
          DistinctIn(a, i);
          Smaller(a, i);
          SameReflexive(env, ms[i].val);
          FirstIsOnly(ms, i);
          MatchBy(env, ms[i], ms, i);
        }
        SameObjects(env, a, a);
    }
  }

  lemma SaneLeaf(a: Tree)
    requires Sane(a) && a.Leaf?
    ensures LiteralKind(a.tok.kind)
  {
    hide WfToken;
    hide LiteralKind;
  }

  lemma LeafReflexive(env: Env, t: Token)
    requires LiteralKind(t.kind)
    ensures SameLeaf(env, t, t)
  {
  }

  lemma LeafSymmetric(env: Env, a: Token, b: Token)
    requires Symmetric(env) && SameLeaf(env, a, b)
    ensures SameLeaf(env, b, a)
  {
  }

  lemma LeafTransitive(env: Env, a: Token, b: Token, c: Token)
    requires Transitive(env) && SameLeaf(env, a, b) && SameLeaf(env, b, c)
    ensures SameLeaf(env, a, c)
  {
  }

  lemma {:induction false} SameSymmetric(env: Env, a: Tree, b: Tree)
    requires Symmetric(env) && Sane(a) && Sane(b) && Distinct(a) && Distinct(b) && SameTree(env, a, b)
    ensures SameTree(env, b, a)
    decreases Len(a)
  {
    hide *;
    KindsDiffer(env, a, b);
    match a {
      case Leaf(_, tok) =>
        LeafCase(env, a, b);
        LeafSymmetric(env, tok, b.tok);
        LeafCase(env, b, a);
      case Arr(_, items) =>
        SameArrays(env, a, b);
        forall i | 0 <= i < |items| ensures SameTree(env, b.items[i], items[i]) {
          SaneItem(a, i);
          SaneItem(b, i);
          DistinctIn(a, i);
          DistinctIn(b, i);
          Smaller(a, i);
          SameSymmetric(env, items[i], b.items[i]);
        }
        SameArrays(env, b, a);
      case Obj(_, ms) =>
        SameObjects(env, a, b);
        forall j | 0 <= j < |b.members| && !b.members[j].keySkip ensures Matched(env, b.members[j], ms) {
          MemberSymmetric(env, a, b, j);
        }
        SameObjects(env, b, a);
    }
  }

  lemma {:induction false} MemberSymmetric(env: Env, a: Tree, b: Tree, j: nat)
    requires Symmetric(env) && Sane(a) && Sane(b) && Distinct(a) && Distinct(b) && a.Obj? && b.Obj? && SameTree(env, a, b)
    requires j < |b.members| && !b.members[j].keySkip
    ensures Matched(env, b.members[j], a.members)
    decreases Len(a), 0
  {
    hide *;
    var ms, bs := a.members, b.members;
    SameObjects(env, a, b);
    DistinctIn(a, 0);
    DistinctIn(b, j);
    forall i | 0 <= i < |ms| && !ms[i].keySkip ensures ms[i].key.raw in LiveKeys(bs) {
      MatchedKey(env, ms[i], bs);
    }
    var i := KeysBack(ms, bs, j);
    var l := MatchIs(env, ms[i], bs);
    FirstIsOnly(bs, j);
    FirstIsOnly(ms, i);
    DistinctIn(a, i);
    SaneKey(a, i);
    SaneKey(b, j);
    Smaller(a, i);
    SameSymmetric(env, ms[i].val, bs[j].val);
    MatchBy(env, bs[j], ms, i);
  }

  lemma {:induction false} SameTransitive(env: Env, a: Tree, b: Tree, c: Tree)
    requires Transitive(env) && SameTree(env, a, b) && SameTree(env, b, c)
    ensures SameTree(env, a, c)
    decreases Len(a)
  {
    hide *;
    KindsDiffer(env, a, b);
    KindsDiffer(env, b, c);
    match a {
      case Leaf(_, tok) =>
        LeafCase(env, a, b);
        LeafCase(env, b, c);
        LeafTransitive(env, tok, b.tok, c.tok);
        LeafCase(env, a, c);
      case Arr(_, items) =>
        SameArrays(env, a, b);
        SameArrays(env, b, c);
        forall i | 0 <= i < |items| ensures SameTree(env, items[i], c.items[i]) {
          Smaller(a, i);
          SameTransitive(env, items[i], b.items[i], c.items[i]);
        }
        SameArrays(env, a, c);
      case Obj(_, ms) =>
        SameObjects(env, a, b);
        SameObjects(env, b, c);
        forall i | 0 <= i < |ms| && !ms[i].keySkip ensures Matched(env, ms[i], c.members) {
          var j := MatchIs(env, ms[i], b.members);
          var k := MatchIs(env, b.members[j], c.members);
          Smaller(a, i);
          SameTransitive(env, ms[i].val, b.members[j].val, c.members[k].val);
          MatchBy(env, ms[i], c.members, k);
        }
        SameObjects(env, a, c);
    }
  }

  // ---------------------------------------------------------------- leaves

  /** Leaves of different kinds are never the same; strings are when spelled alike, and the
      three words always; short numerals are when spelled alike or when their doubles are
      equal, longer ones only when spelled alike. */
  lemma LeavesAre(env: Env, a: Tree, b: Tree)
    requires a.Leaf? && b.Leaf?
    ensures a.tok.kind != b.tok.kind ==> !SameTree(env, a, b)
    ensures a.tok.kind == b.tok.kind && a.tok.kind in {TNull, TTrue, TFalse} ==> SameTree(env, a, b)
    ensures a.tok.kind == TString && b.tok.kind == TString ==> (SameTree(env, a, b) <==> a.tok.raw == b.tok.raw)
    ensures a.tok.kind == TNumber && b.tok.kind == TNumber && |a.tok.raw| <= 127 && |b.tok.raw| <= 127 ==>
              (SameTree(env, a, b) <==> a.tok.raw == b.tok.raw || env.eq(env.strtod(a.tok.raw), env.strtod(b.tok.raw)))
    ensures a.tok.kind == TNumber && b.tok.kind == TNumber && (|a.tok.raw| > 127 || |b.tok.raw| > 127) ==>
              (SameTree(env, a, b) <==> a.tok.raw == b.tok.raw)
  {
    LeafCase(env, a, b);
    hide SameTree;
  }

  /** A leaf is no container, an array no object. */
  lemma KindsApart(env: Env, a: Tree, b: Tree)
    requires a.Leaf? != b.Leaf? || a.Arr? != b.Arr?
    ensures !SameTree(env, a, b)
  {
    hide *;
    KindsDiffer(env, a, b);
  }

  /** `uniqueItems` refuses an array with two short numerals whose doubles are equal, however
      they are spelled. */
  lemma EqualNumbersRefused(env: Env, d: Tree, i: nat, j: nat)
    requires d.Arr? && i < j < |d.items| && d.items[i].Leaf? && d.items[j].Leaf?
    requires d.items[i].tok.kind == TNumber && |d.items[i].tok.raw| <= 127
    requires d.items[j].tok.kind == TNumber && |d.items[j].tok.raw| <= 127
    requires env.eq(env.strtod(d.items[i].tok.raw), env.strtod(d.items[j].tok.raw))
    ensures !Accepts(env, Only(Ascii("uniqueItems"), Leaf(false, Token(TTrue, [], false))), d)
  {
    hide SameTree;
    hide Accepts;
    hide Only;
    LeavesAre(env, d.items[i], d.items[j]);
    UniqueLaw(env, Leaf(false, Token(TTrue, [], false)), d);
  }

  // ---------------------------------------------------------------- repeated live keys

  const REPEATED_KEY := Token(TString, [97], false)

  /** With a live key repeated, a value need not even be equal to itself. */
  const REPEATED := Obj(false, [Member(REPEATED_KEY, false, Leaf(false, Token(TTrue, [], false))),
                                Member(REPEATED_KEY, false, Leaf(false, Token(TNull, [], false)))])

  lemma RepeatedNotReflexive(env: Env)
    ensures Sane(REPEATED) && !SameTree(env, REPEATED, REPEATED)
  {
    var ms := REPEATED.members;
    assert SaneMember(ms[0]) && SaneMember(ms[1]);
    assert FirstLive(ms, [97]) == 0;
    assert !Matched(env, ms[1], ms);
    Unmatched(env, REPEATED, REPEATED, 1);
  }
}
