/** The pool the parser leaves is the preorder flattening of the value, with the values of
    duplicate keys marked (src/parser/parser.c). */
module PoolShape {
  import opened Bytes
  import opened Ast
  import opened Keywords
  import opened Grammar
  import opened KeyTree
  import opened KeySet
  import opened ScopedKeys
  import opened Building

  // ---------------------------------------------------------------- the marked value

  /** A key is found to be a duplicate when an earlier key of the object has its text and
      the scoped key is short enough for the set. */
  predicate IsDuplicate(parent: nat, text: bytes, seen: set<bytes>) {
    text in seen && |Scoped(parent, text)| <= MAX_KEY_LEN
  }

  /** The value at pool index `at` with its duplicates marked. */
  function Marked(at: nat, t: Tree, skip: bool): (r: Tree)
    ensures r.skip == skip
    decreases t
  {
    match t
    case Leaf(_, tok) => Leaf(skip, tok)
    case Arr(_, items) => Arr(skip, MarkedItems(at + 1, items))
    case Obj(_, ms) => Obj(skip, MarkedMembers(at, at + 1, ms, {}))
  }

  function MarkedItems(pos: nat, items: seq<Tree>): (r: seq<Tree>)
    ensures |r| == |items|
    decreases items
  {
    if items == [] then [] else [Marked(pos, items[0], false)] + MarkedItems(pos + Len(items[0]), items[1..])
  }

  function MarkedMembers(parent: nat, pos: nat, ms: seq<Member>, seen: set<bytes>): (r: seq<Member>)
    ensures |r| == |ms|
    decreases ms
  {
    if ms == [] then []
    else
      var text := KeyText(ms[0].key);
      var dup := IsDuplicate(parent, text, seen);
      assert ms[0].val < ms[0];
      [Member(ms[0].key, dup, Marked(pos + 1, ms[0].val, dup))]
      + MarkedMembers(parent, pos + 1 + Len(ms[0].val), ms[1..], seen + {text})
  }

  lemma {:induction false} MarkedLen(at: nat, t: Tree, skip: bool)
    ensures Len(Marked(at, t, skip)) == Len(t)
    decreases t, 1
  {
    match t {
      case Leaf(_, _) =>
      case Arr(_, items) => MarkedItemsLen(at + 1, items);
      case Obj(_, ms) => MarkedMembersLen(at, at + 1, ms, {});
    }
  }

  lemma {:induction false} MarkedItemsLen(pos: nat, items: seq<Tree>)
    ensures ItemsLen(MarkedItems(pos, items)) == ItemsLen(items)
    decreases items, 0
  {
    if items != [] {
      MarkedLen(pos, items[0], false);
      MarkedItemsLen(pos + Len(items[0]), items[1..]);
      var rest := MarkedItems(pos + Len(items[0]), items[1..]);
      assert ([Marked(pos, items[0], false)] + rest)[1..] == rest;
    }
  }

  lemma {:induction false} MarkedMembersLen(parent: nat, pos: nat, ms: seq<Member>, seen: set<bytes>)
    ensures MembersLen(MarkedMembers(parent, pos, ms, seen)) == MembersLen(ms)
    decreases ms, 0
  {
    hide KeyText;
    hide IsDuplicate;
    if ms != [] {
      var text := KeyText(ms[0].key);
      var dup := IsDuplicate(parent, text, seen);
      assert ms[0].val < ms[0];
      MarkedLen(pos + 1, ms[0].val, dup);
      MarkedMembersLen(parent, pos + 1 + Len(ms[0].val), ms[1..], seen + {text});
      var rest := MarkedMembers(parent, pos + 1 + Len(ms[0].val), ms[1..], seen + {text});
      var head := Member(ms[0].key, dup, Marked(pos + 1, ms[0].val, dup));
      assert ([head] + rest)[1..] == rest;
    }
  }

  // ---------------------------------------------------------------- built pools

  /** `At`, with the parent links. */
  ghost predicate Built(pool: seq<Node>, i: nat, t: Tree, parent: int)
    decreases t
  {
    && i < |pool|
    && pool[i].kind == KindOf(t) && pool[i].tok == TokenOf(t) && pool[i].parent == parent
    && match t
       case Leaf(_, _) => pool[i].firstChild == -1
       case Arr(_, items) =>
         pool[i].firstChild == (if items == [] then -1 else i + 1) && BuiltItems(pool, i + 1, items, i)
       case Obj(_, ms) =>
         pool[i].firstChild == (if ms == [] then -1 else i + 1) && BuiltMembers(pool, i + 1, ms, i)
  }

  ghost predicate BuiltItems(pool: seq<Node>, i: nat, items: seq<Tree>, parent: nat)
    decreases items
  {
    items == [] ||
    (&& Built(pool, i, items[0], parent)
     && pool[i].nextSibling == (if |items| == 1 then -1 else i + Len(items[0]))
     && BuiltItems(pool, i + Len(items[0]), items[1..], parent))
  }

  ghost predicate BuiltMembers(pool: seq<Node>, i: nat, ms: seq<Member>, parent: nat)
    decreases ms
  {
    ms == [] ||
    (&& KeyAt(pool, i, ms[0]) && pool[i].parent == parent
     && (assert ms[0].val < ms[0]; Built(pool, i + 1, ms[0].val, parent))
     && pool[i + 1].nextSibling == (if |ms| == 1 then -1 else i + 1 + Len(ms[0].val))
     && BuiltMembers(pool, i + 1 + Len(ms[0].val), ms[1..], parent))
  }

  /** A built pool holds the value. */
  lemma {:induction false} BuiltAt(pool: seq<Node>, i: nat, t: Tree, parent: int)
    requires Built(pool, i, t, parent)
    ensures At(pool, i, t)
    decreases t, 1
  {
    match t {
      case Leaf(_, _) =>
      case Arr(_, items) => BuiltItemsAt(pool, i + 1, items, i);
      case Obj(_, ms) => BuiltMembersAt(pool, i + 1, ms, i);
    }
  }

  lemma {:induction false} BuiltItemsAt(pool: seq<Node>, i: nat, items: seq<Tree>, parent: nat)
    requires BuiltItems(pool, i, items, parent)
    ensures ItemsAt(pool, i, items)
    decreases items, 0
  {
    if items != [] {
      BuiltAt(pool, i, items[0], parent);
      BuiltItemsAt(pool, i + Len(items[0]), items[1..], parent);
    }
  }

  lemma {:induction false} BuiltMembersAt(pool: seq<Node>, i: nat, ms: seq<Member>, parent: nat)
    requires BuiltMembers(pool, i, ms, parent)
    ensures MembersAt(pool, i, ms)
    decreases ms, 0
  {
    hide KeyAt;
    if ms != [] {
      assert ms[0].val < ms[0];
      BuiltAt(pool, i + 1, ms[0].val, parent);
      BuiltMembersAt(pool, i + 1 + Len(ms[0].val), ms[1..], parent);
    }
  }

  // ---------------------------------------------------------------- what may still change

  /** A node without its key tree. */
  function Bare(n: Node): Node { n.(keyTreeRoot := -1) }

  ghost predicate SameSpan(a: seq<Node>, b: seq<Node>, lo: nat, hi: nat) {
    hi <= |a| && hi <= |b| && forall q :: lo <= q < hi ==> Bare(a[q]) == Bare(b[q])
  }

  /** The same value may get a sibling. */
  ghost predicate SameTree1(a: seq<Node>, b: seq<Node>, i: nat, n: nat) {
    && n >= 1 && i + n <= |a| && i + n <= |b|
    && Bare(a[i]).(nextSibling := -1) == Bare(b[i]).(nextSibling := -1)
    && SameSpan(a, b, i + 1, i + n)
  }

  lemma SpanNarrow(a: seq<Node>, b: seq<Node>, lo: nat, hi: nat, lo2: nat, hi2: nat)
    requires SameSpan(a, b, lo, hi) && lo <= lo2 && hi2 <= hi
    ensures SameSpan(a, b, lo2, hi2)
  {
    hide Bare;
  }

  lemma SpanTree(a: seq<Node>, b: seq<Node>, i: nat, n: nat)
    requires SameSpan(a, b, i, i + n) && n >= 1
    ensures SameTree1(a, b, i, n)
  {
  }

  lemma {:induction false} BuiltFrame(a: seq<Node>, b: seq<Node>, i: nat, t: Tree, parent: int)
    requires Built(a, i, t, parent) && SameTree1(a, b, i, Len(t))
    ensures Built(b, i, t, parent)
    decreases t, 1
  {
    match t {
      case Leaf(_, _) =>
      case Arr(_, items) => ItemsFrame(a, b, i + 1, items, i);
      case Obj(_, ms) => MembersFrame(a, b, i + 1, ms, i);
    }
  }

  lemma {:induction false} ItemsFrame(a: seq<Node>, b: seq<Node>, i: nat, items: seq<Tree>, parent: nat)
    requires BuiltItems(a, i, items, parent) && SameSpan(a, b, i, i + ItemsLen(items))
    ensures BuiltItems(b, i, items, parent)
    decreases items, 0
  {
    if items != [] {
      var n := Len(items[0]);
      SpanNarrow(a, b, i, i + ItemsLen(items), i, i + n);
      SpanTree(a, b, i, n);
      BuiltFrame(a, b, i, items[0], parent);
      SpanNarrow(a, b, i, i + ItemsLen(items), i + n, i + ItemsLen(items));
      ItemsFrame(a, b, i + n, items[1..], parent);
      assert Bare(a[i]) == Bare(b[i]);
    }
  }

  lemma {:induction false} MembersFrame(a: seq<Node>, b: seq<Node>, i: nat, ms: seq<Member>, parent: nat)
    requires BuiltMembers(a, i, ms, parent) && SameSpan(a, b, i, i + MembersLen(ms))
    ensures BuiltMembers(b, i, ms, parent)
    decreases ms, 0
  {
    if ms != [] {
      assert ms[0].val < ms[0];
      var n := Len(ms[0].val);
      SpanNarrow(a, b, i, i + MembersLen(ms), i + 1, i + 1 + n);
      SpanTree(a, b, i + 1, n);
      BuiltFrame(a, b, i + 1, ms[0].val, parent);
      SpanNarrow(a, b, i, i + MembersLen(ms), i + 1 + n, i + MembersLen(ms));
      MembersFrame(a, b, i + 1 + n, ms[1..], parent);
      assert Bare(a[i]) == Bare(b[i]) && Bare(a[i + 1]) == Bare(b[i + 1]);
    }
  }
}
