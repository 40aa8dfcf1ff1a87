/** Walking the children of a pool node along its sibling links. */
module Walk {
  import opened Bytes
  import opened Ast
  import opened Keywords
  import opened Layout
  import opened Code

  predicate NodeTrue(n: Node) { n.kind == AstLeaf && n.tok.kind == TTrue }

  predicate NodeFalse(n: Node) { n.kind == AstLeaf && n.tok.kind == TFalse }

  predicate NodeStr(n: Node) { n.kind == AstLeaf && n.tok.kind == TString }

  predicate NodeValidSub(n: Node) { n.kind == AstObject || NodeTrue(n) || NodeFalse(n) }

  lemma NodeFacts(pool: seq<Node>, i: nat, t: Tree)
    requires At(pool, i, t)
    ensures i < |pool|
    ensures pool[i].tok == TokenOf(t)
    ensures NodeTrue(pool[i]) == IsTrue(t) && NodeFalse(pool[i]) == IsFalse(t) && NodeStr(pool[i]) == IsStr(t)
    ensures NodeValidSub(pool[i]) == ValidSub(t)
    ensures (pool[i].kind == AstObject) == IsObject(t) && (pool[i].kind == AstArray) == IsArray(t)
  {
    hide ItemsAt;
    hide MembersAt;
  }

  // ---------------------------------------------------------------- members

  /** `cur` is the key node of member `i` of the object at `at`, or -1 after the last. */
  ghost predicate MemberCursor(pool: seq<Node>, at: nat, ms: seq<Member>, i: nat, cur: int) {
    && i <= |ms|
    && cur == (if i == |ms| then -1 else at + PosOf(ms, i))
    && MembersAt(pool, at + PosOf(ms, i), ms[i..])
  }

  lemma FirstMember(pool: seq<Node>, at: nat, t: Tree)
    requires At(pool, at, t) && t.Obj?
    ensures MemberCursor(pool, at, t.members, 0, pool[at].firstChild)
  {
    hide MembersAt;
    assert t.members[0..] == t.members;
  }

  lemma MembersCons(pool: seq<Node>, p: nat, m: Member, rest: seq<Member>)
    requires MembersAt(pool, p, [m] + rest)
    ensures KeyAt(pool, p, m) && At(pool, p + 1, m.val) && p + 1 < |pool|
    ensures pool[p + 1].nextSibling == (if rest == [] then -1 else p + 1 + Len(m.val))
    ensures MembersAt(pool, p + 1 + Len(m.val), rest)
  {
    hide At;
    hide KeyAt;
    assert ([m] + rest)[1..] == rest;
    AtBound(pool, p + 1, m.val);
  }

  lemma AtBound(pool: seq<Node>, i: nat, t: Tree)
    ensures At(pool, i, t) ==> i < |pool|
  {
    hide ItemsAt;
    hide MembersAt;
  }

  lemma MemberStep(pool: seq<Node>, at: nat, ms: seq<Member>, i: nat, cur: int)
    requires MemberCursor(pool, at, ms, i, cur) && i < |ms|
    ensures cur == at + PosOf(ms, i) && cur + 1 < |pool|
    ensures KeyAt(pool, cur, ms[i]) && At(pool, cur + 1, ms[i].val)
    ensures MemberCursor(pool, at, ms, i + 1, pool[cur + 1].nextSibling)
  {
    hide MembersAt;
    hide At;
    hide KeyAt;
    assert ms[i..] == [ms[i]] + ms[i + 1..];
    MembersCons(pool, cur, ms[i], ms[i + 1..]);
  }

  /** The key node links to the value node after it. */
  lemma KeyFacts(pool: seq<Node>, i: nat, m: Member)
    requires KeyAt(pool, i, m)
    ensures i < |pool| && pool[i].tok == m.key && pool[i].nextSibling == i + 1
    ensures (pool[i].kind == AstSkipped) == m.keySkip
  {
  }

  /** A live key node on its own is a string value. */
  lemma KeyAsLeaf(pool: seq<Node>, i: nat, m: Member)
    requires KeyAt(pool, i, m) && !m.keySkip
    ensures At(pool, i, Leaf(false, m.key))
  {
  }

  method CountMembers(pool: seq<Node>, at: nat, ghost t: Tree) returns (n: nat)
    requires At(pool, at, t) && t.Obj?
    ensures n == |t.members|
  {
    hide *;
    AtBound(pool, at, t);
    FirstMember(pool, at, t);
    CursorEnd(pool, at, t.members, 0, pool[at].firstChild);
    n := 0;
    var p := pool[at].firstChild;
    while p != -1
      invariant n <= |t.members| && MemberCursor(pool, at, t.members, n, p)
      invariant p == -1 <==> n == |t.members|
      decreases |t.members| - n
    {
      MemberStep(pool, at, t.members, n, p);
      n := n + 1;
      p := pool[p + 1].nextSibling;
      CursorEnd(pool, at, t.members, n, p);
    }
  }

  lemma CursorEnd(pool: seq<Node>, at: nat, ms: seq<Member>, i: nat, cur: int)
    requires MemberCursor(pool, at, ms, i, cur)
    ensures i <= |ms| && (cur == -1 <==> i == |ms|)
  {
    hide MembersAt;
    hide PosOf;
  }

  // ---------------------------------------------------------------- array items

  /** Where item `i` lies, relative to the array node. */
  function ItemPos(items: seq<Tree>, i: nat): (p: nat)
    requires i <= |items|
  {
    if i == 0 then 1 else ItemPos(items, i - 1) + Len(items[i - 1])
  }

  ghost predicate ItemCursor(pool: seq<Node>, at: nat, items: seq<Tree>, i: nat, cur: int) {
    && i <= |items|
    && cur == (if i == |items| then -1 else at + ItemPos(items, i))
    && ItemsAt(pool, at + ItemPos(items, i), items[i..])
  }

  lemma FirstItem(pool: seq<Node>, at: nat, t: Tree)
    requires At(pool, at, t) && t.Arr?
    ensures ItemCursor(pool, at, t.items, 0, pool[at].firstChild)
  {
    hide ItemsAt;
    assert t.items[0..] == t.items;
  }

  lemma ItemsCons(pool: seq<Node>, p: nat, x: Tree, rest: seq<Tree>)
    requires ItemsAt(pool, p, [x] + rest)
    ensures At(pool, p, x) && p < |pool|
    ensures pool[p].nextSibling == (if rest == [] then -1 else p + Len(x))
    ensures ItemsAt(pool, p + Len(x), rest)
  {
    hide At;
    assert ([x] + rest)[1..] == rest;
    AtBound(pool, p, x);
  }

  lemma ItemStep(pool: seq<Node>, at: nat, items: seq<Tree>, i: nat, cur: int)
    requires ItemCursor(pool, at, items, i, cur) && i < |items|
    ensures cur == at + ItemPos(items, i) && cur < |pool|
    ensures At(pool, cur, items[i])
    ensures ItemCursor(pool, at, items, i + 1, pool[cur].nextSibling)
  {
    hide ItemsAt;
    hide At;
    assert items[i..] == [items[i]] + items[i + 1..];
    ItemsCons(pool, cur, items[i], items[i + 1..]);
  }

  lemma ItemCursorEnd(pool: seq<Node>, at: nat, items: seq<Tree>, i: nat, cur: int)
    requires ItemCursor(pool, at, items, i, cur)
    ensures i <= |items| && (cur == -1 <==> i == |items|)
  {
    hide ItemsAt;
    hide ItemPos;
  }

  method CountItems(pool: seq<Node>, at: nat, ghost t: Tree) returns (n: nat)
    requires At(pool, at, t) && t.Arr?
    ensures n == |t.items|
  {
    hide *;
    AtBound(pool, at, t);
    FirstItem(pool, at, t);
    ItemCursorEnd(pool, at, t.items, 0, pool[at].firstChild);
    n := 0;
    var c := pool[at].firstChild;
    while c != -1
      invariant n <= |t.items| && ItemCursor(pool, at, t.items, n, c)
      invariant c == -1 <==> n == |t.items|
      decreases |t.items| - n
    {
      ItemStep(pool, at, t.items, n, c);
      n := n + 1;
      c := pool[c].nextSibling;
      ItemCursorEnd(pool, at, t.items, n, c);
    }
  }
}
