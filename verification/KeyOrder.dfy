/** After the parse every object's key tree lists exactly its stored keys, in byte order:
    objects with the same key texts list the same texts (src/parser/parser.c,
    src/parser/keytree.c). */
module KeyOrder {
  import opened Bytes
  import opened Ast
  import opened Keywords
  import opened Grammar
  import opened KeyTree
  import opened KeySet
  import opened ScopedKeys
  import opened Building
  import opened PoolShape
  import opened PoolBuilt
  import opened KeyForest

  /** Links lead forward and roots into the pool or nowhere. */
  ghost predicate Rooted(pool: seq<Node>, tree: seq<KeyNode>) {
    Forward(tree) && forall i :: 0 <= i < |pool| ==> -1 <= pool[i].keyTreeRoot < |tree|
  }

  lemma StateRooted(st: St)
    requires StOk(st)
    ensures Rooted(st.nodes, st.tree)
  {
    hide ScopesOk;
  }

  // ---------------------------------------------------------------- one new node

  ghost predicate Filed(st: St) {
    StOk(st) && Forest(st.nodes, st.tree)
  }

  /** The nodes once the new one is linked, before its key is entered. */
  function Joined(st: St, n: Node): (r: seq<Node>)
    requires StOk(st) && |st.scopes| >= 3
    ensures |r| == |st.nodes| + 1
  {
    ScopeFacts(st);
    SkipValue(Linked(st.nodes + [n], Parent(st), Tail(st), |st.nodes|), Parent(st), Tail(st), Count(st), |st.nodes|)
  }

  lemma JoinedSame(st: St, n: Node)
    requires StOk(st) && |st.scopes| >= 3 && n.keyTreeRoot == -1
    ensures SameKeys(st.nodes, Joined(st, n))
    ensures 0 <= Parent(st) < |st.nodes|
    ensures Joined(st, n)[|st.nodes|].parent == Parent(st) && Joined(st, n)[|st.nodes|].tok == n.tok
  {
    hide StOk;
    ScopeFacts(st);
  }

  lemma PushValueForms(lim: Limits, st: St, n: Node)
    requires StOk(st) && ValueNext(st) && n.keyTreeRoot == -1
    ensures var r := Push(lim, st, n);
            && r.tree == st.tree && r.keys == st.keys
            && r.nodes == if |st.scopes| < 3 then st.nodes + [n] else Joined(st, n)
  {
    hide ScopesOk;
    hide Forward;
    hide EnterKey;
    ScopeFacts(st);
  }

  lemma PushValueFiled(lim: Limits, st: St, n: Node)
    requires Filed(st) && StOk(st) && ValueNext(st) && n.keyTreeRoot == -1
    ensures Filed(Push(lim, st, n)) && Push(lim, st, n).tree == st.tree
  {
    hide StOk;
    hide Push;
    hide ValueNext;
    hide Forest;
    hide Joined;
    PushValueForms(lim, st, n);
    if |st.scopes| >= 3 {
      JoinedSame(st, n);
    }
    ForestSame(st.nodes, Push(lim, st, n).nodes, st.tree);
  }

  lemma PushKeyForms(lim: Limits, st: St, n: Node)
    requires StOk(st) && KeyNext(st) && n.keyTreeRoot == -1
    ensures |st.scopes| >= 3 && 0 <= Parent(st) < |st.nodes|
    ensures var r := Push(lim, st, n);
            var e := EnterKey(lim, St(Joined(st, n), [], st.keys, st.tree), Parent(st), |st.nodes|);
            r.nodes == e.nodes && r.keys == e.keys && r.tree == e.tree
  {
    hide ScopesOk;
    hide Forward;
    hide KeyText;
    hide Scoped;
    hide KeyInsert;
    ScopeFacts(st);
  }

  /** The key is put into its object's tree: it is no duplicate and not overlong. */
  ghost predicate Stored(parent: nat, text: bytes, dup: bool) {
    !dup && |Scoped(parent, text)| <= MAX_STORED_LEN
  }

  lemma PushKeyFiled(lim: Limits, st: St, n: Node)
    requires Filed(st) && StOk(st) && KeyNext(st) && n.keyTreeRoot == -1 && |st.tree| < lim.tree && |st.keys| < lim.keys
    ensures |st.scopes| >= 3 && 0 <= Parent(st) < |st.nodes|
    ensures var r := Push(lim, st, n);
            var text := KeyText(n.tok);
            var dup := |Scoped(Parent(st), text)| <= MAX_KEY_LEN && Scoped(Parent(st), text) in st.keys;
            && Filed(r)
            && KeysIn(r.tree) == KeysIn(st.tree) + (if Stored(Parent(st), text, dup) then {|st.nodes|} else {})
            && |r.tree| <= |st.tree| + 1
  {
    hide StOk;
    hide Push;
    hide KeyNext;
    hide Forest;
    hide Joined;
    hide EnterKey;
    hide KeysIn;
    hide Scoped;
    hide KeyText;
    PushKeyForms(lim, st, n);
    JoinedSame(st, n);
    ForestSame(st.nodes, Joined(st, n), st.tree);
    EntriesInside(st);
    EnterFiled(lim, Joined(st, n), st.keys, st.tree, Parent(st), |st.nodes|);
  }

  lemma EntriesInside(st: St)
    requires Filed(st)
    ensures Newest(st.tree, |st.nodes|)
  {
    hide StOk;
    hide OwnTree;
    hide Reach;
  }

  lemma EnterFiled(lim: Limits, pool: seq<Node>, keys: set<bytes>, tree: seq<KeyNode>, parent: nat, idx: nat)
    requires Forest(pool, tree) && |tree| < lim.tree && |keys| < lim.keys && Newest(tree, idx)
    requires parent < |pool| && idx < |pool| && pool[idx].parent == parent
    ensures var e := EnterKey(lim, St(pool, [], keys, tree), parent, idx);
            var text := KeyText(pool[idx].tok);
            var dup := |Scoped(parent, text)| <= MAX_KEY_LEN && Scoped(parent, text) in keys;
            && Forest(e.nodes, e.tree)
            && KeysIn(e.tree) == KeysIn(tree) + (if Stored(parent, text, dup) then {idx} else {})
            && |e.tree| <= |tree| + 1
  {
    hide Forest;
    hide KeysIn;
    hide Scoped;
    hide KeyText;
    hide KeyInsert;
    var text := KeyText(pool[idx].tok);
    var key := Scoped(parent, text);
    TextIs(pool, idx);
    if |key| > MAX_STORED_LEN {
    } else if |key| <= MAX_KEY_LEN && key in keys {
      ForestSame(pool, pool[idx := pool[idx].(kind := AstSkipped)], tree);
    } else {
      EnterForest(lim.tree, pool, tree, parent, idx);
      KeysInMore(tree, KeyInsert(lim.tree, tree, pool[parent].keyTreeRoot, idx, pool).0, idx);
    }
  }

  lemma TextIs(pool: seq<Node>, i: nat)
    requires i < |pool|
    ensures TextAt(pool, i) == KeyText(pool[i].tok)
  {
    hide KeyText;
  }

  /** The key nodes that have an entry. */
  function KeysIn(tree: seq<KeyNode>): set<nat> {
    set k: nat | k < |tree| :: tree[k].key
  }

  lemma KeysInMore(tree: seq<KeyNode>, t2: seq<KeyNode>, idx: nat)
    requires |t2| == |tree| + 1 && t2[|tree|].key == idx && forall k :: 0 <= k < |tree| ==> t2[k].key == tree[k].key
    ensures KeysIn(t2) == KeysIn(tree) + {idx}
  {
    forall j | j in KeysIn(tree) ensures j in KeysIn(t2) {
      var k: nat :| k < |tree| && tree[k].key == j;
      assert t2[k].key == j;
    }
    forall j | j in KeysIn(t2) ensures j in KeysIn(tree) || j == idx {
      var k: nat :| k < |t2| && t2[k].key == j;
      if k < |tree| {
        assert tree[k].key == j;
      }
    }
    assert idx in KeysIn(t2);
  }

  // ---------------------------------------------------------------- a whole value

  /** The pool positions of the keys a marked value has stored. */
  function StoredIn(at: nat, t: Tree): set<nat>
    decreases t
  {
    match t
    case Leaf(_, _) => {}
    case Arr(_, items) => StoredItems(at + 1, items)
    case Obj(_, ms) => StoredMembers(at, at + 1, ms)
  }

  function StoredItems(pos: nat, items: seq<Tree>): set<nat>
    decreases items
  {
    if items == [] then {} else StoredIn(pos, items[0]) + StoredItems(pos + Len(items[0]), items[1..])
  }

  function StoredMembers(parent: nat, pos: nat, ms: seq<Member>): set<nat>
    decreases ms
  {
    if ms == [] then {}
    else
      assert ms[0].val < ms[0];
      (if StoredKey(parent, ms[0]) then {pos} else {}) + StoredIn(pos + 1, ms[0].val)
      + StoredMembers(parent, pos + 1 + Len(ms[0].val), ms[1..])
  }

  predicate StoredKey(parent: nat, m: Member) {
    !m.keySkip && |Scoped(parent, KeyText(m.key))| <= MAX_STORED_LEN
  }

  /** After one value: its stored keys, and no others, have joined the forest. */
  ghost predicate OneFiled(st: St, r: St, stored: set<nat>, keys: nat) {
    && Filed(r)
    && KeysIn(r.tree) == KeysIn(st.tree) + stored
    && |r.tree| <= |st.tree| + keys
  }

  lemma FiledTwice(a: St, b: St, c: St, s: set<nat>, t: set<nat>, m: nat, n: nat)
    requires OneFiled(a, b, s, m) && OneFiled(b, c, t, n)
    ensures OneFiled(a, c, s + t, m + n)
  {
    hide Filed;
    hide KeysIn;
  }

  lemma FiledMeans(a: St, b: St, s: set<nat>, n: nat)
    requires OneFiled(a, b, s, n)
    ensures Filed(b) && |b.tree| <= |a.tree| + n && KeysIn(b.tree) == KeysIn(a.tree) + s
  {
    hide Filed;
    hide KeysIn;
  }

  lemma ValueFiled(lim: Limits, st: St, n: Node)
    requires Filed(st) && StOk(st) && ValueNext(st) && n.keyTreeRoot == -1
    ensures OneFiled(st, Push(lim, st, n), {}, 0)
  {
    hide StOk;
    hide Forest;
    hide Push;
    hide ValueNext;
    hide KeysIn;
    PushValueFiled(lim, st, n);
  }

  lemma LeafFiled(lim: Limits, st: St, t: Tree)
    requires StOk(st) && Filed(st) && ValueNext(st) && t.Leaf?
    ensures OneFiled(st, AddTree(lim, st, t), {}, 0)
  {
    hide StOk;
    hide Filed;
    hide OneFiled;
    hide ValueNext;
    hide Push;
    ValueFiled(lim, st, NewNode(AstLeaf, t.tok));
  }

  lemma OpenFiled(lim: Limits, st: St, kind: NodeKind, tok: Token)
    requires StOk(st) && Filed(st) && ValueNext(st)
    ensures OneFiled(st, OpenScope(Push(lim, st, NewNode(kind, tok))), {}, 0)
  {
    hide StOk;
    hide Forest;
    hide ValueNext;
    hide Push;
    hide KeysIn;
    ValueFiled(lim, st, NewNode(kind, tok));
  }

  lemma CloseFiled(st: St, r: St, stored: set<nat>, keys: nat)
    requires StOk(r) && |r.scopes| >= 3 && OneFiled(st, r, stored, keys)
    ensures OneFiled(st, CloseScope(r), stored, keys)
  {
    hide StOk;
    hide Forest;
    hide KeysIn;
  }

  lemma ItemsStored(i: nat, x: Tree, rest: seq<Tree>)
    ensures StoredItems(i, MarkedItems(i, [x] + rest))
         == StoredIn(i, Marked(i, x, false)) + StoredItems(i + Len(x), MarkedItems(i + Len(x), rest))
  {
    hide Marked;
    hide StoredIn;
    hide Len;
    ItemsForms(i, x, rest);
    MarkedLen(i, x, false);
    var more := MarkedItems(i + Len(x), rest);
    assert ([Marked(i, x, false)] + more)[1..] == more;
  }

  lemma NoItemsStored(i: nat, parent: nat, seen: set<bytes>)
    ensures StoredItems(i, MarkedItems(i, [])) == {} && StoredMembers(parent, i, MarkedMembers(parent, i, [], seen)) == {}
  {
  }

  lemma {:induction false} ItemsFiled(lim: Limits, st: St, items: seq<Tree>)
    requires Ready(lim, st, KeyCountItems(items)) && StOk(st) && InArray(st) && Filed(st)
    requires |st.tree| + KeyCountItems(items) <= lim.tree
    requires forall i :: 0 <= i < |items| ==> Doc(items[i])
    ensures OneFiled(st, AddItems(lim, st, items), StoredItems(|st.nodes|, MarkedItems(|st.nodes|, items)), KeyCountItems(items))
    decreases items, 0
  {
    hide *;
    ArrayNext(st);
    if items == [] {
      NoItems(lim, st, 0);
      NoItemsStored(|st.nodes|, 0, {});
      NothingFiled(st);
    } else {
      var x, rest := items[0], items[1..];
      ItemsNext(lim, st, items);
      ItemsForms(|st.nodes|, x, rest);
      ItemsStored(|st.nodes|, x, rest);
      ReadyLess(lim, st, KeyCountItems(items), KeyCount(x));
      TreeBuilt(lim, st, x);
      TreeFiled(lim, st, x);
      var r1 := AddTree(lim, st, x);
      OneGrown(st, r1, x);
      GrownMeans(st, r1, x);
      StillInArray(st, r1, x);
      KeysBelowGrown(st, r1, Len(x), KeyCount(x), |st.nodes|, lim, KeyCountItems(rest));
      var s1 := StoredIn(|st.nodes|, Marked(|st.nodes|, x, SkipNext(st)));
      FiledMeans(st, r1, s1, KeyCount(x));
      ItemsFiled(lim, r1, rest);
      FiledTwice(st, r1, AddItems(lim, r1, rest), s1, StoredItems(|r1.nodes|, MarkedItems(|r1.nodes|, rest)), KeyCount(x), KeyCountItems(rest));
    }
  }

  lemma NothingFiled(st: St)
    requires Filed(st)
    ensures OneFiled(st, st, {}, 0)
  {
    hide Filed;
    hide KeysIn;
  }

  lemma MembersStored(parent: nat, i: nat, m: Member, rest: seq<Member>, seen: set<bytes>)
    ensures var dup := IsDuplicate(parent, KeyText(m.key), seen);
            StoredMembers(parent, i, MarkedMembers(parent, i, [m] + rest, seen))
            == (if Stored(parent, KeyText(m.key), dup) then {i} else {}) + StoredIn(i + 1, Marked(i + 1, m.val, dup))
               + StoredMembers(parent, i + 1 + Len(m.val), MarkedMembers(parent, i + 1 + Len(m.val), rest, seen + {KeyText(m.key)}))
  {
    hide Marked;
    hide StoredIn;
    hide Len;
    hide KeyText;
    hide Scoped;
    hide IsDuplicate;
    var dup := IsDuplicate(parent, KeyText(m.key), seen);
    MembersForms(parent, i, m, rest, seen);
    MarkedLen(i + 1, m.val, dup);
    var head := Member(m.key, dup, Marked(i + 1, m.val, dup));
    var more := MarkedMembers(parent, i + 1 + Len(m.val), rest, seen + {KeyText(m.key)});
    assert ([head] + more)[1..] == more && ([head] + more)[0] == head;
  }

  lemma KeyFiled(lim: Limits, st: St, key: Token, seen: set<bytes>, more: nat)
    requires Ready(lim, st, 1 + more) && StOk(st) && KeyNext(st) && Filed(st) && |st.tree| + 1 <= lim.tree
    requires |st.scopes| >= 3 && Parent(st) >= 0 && SeenIs(st.keys, Parent(st), seen)
    ensures var dup := IsDuplicate(Parent(st), KeyText(key), seen);
            OneFiled(st, Push(lim, st, NewNode(AstLeaf, key)),
                     if Stored(Parent(st), KeyText(key), dup) then {|st.nodes|} else {}, 1)
  {
    hide StOk;
    hide Filed;
    hide Push;
    hide KeyNext;
    hide KeysIn;
    hide Scoped;
    hide KeyText;
    hide KeysFrom;
    PushKeyFiled(lim, st, NewNode(AstLeaf, key));
  }

  lemma {:induction false} MembersFiled(lim: Limits, st: St, ms: seq<Member>, seen: set<bytes>)
    requires Ready(lim, st, KeyCountMembers(ms)) && StOk(st) && KeyNext(st) && Filed(st)
    requires |st.tree| + KeyCountMembers(ms) <= lim.tree
    requires |st.scopes| >= 3 && Parent(st) >= 0 && SeenIs(st.keys, Parent(st), seen)
    requires forall i :: 0 <= i < |ms| ==> DocMember(ms[i])
    ensures OneFiled(st, AddMembers(lim, st, ms),
                     StoredMembers(Parent(st), |st.nodes|, MarkedMembers(Parent(st), |st.nodes|, ms, seen)), KeyCountMembers(ms))
    decreases ms, 0
  {
    hide *;
    if ms == [] {
      NoMembersAdded(lim, st, Parent(st), seen);
      NoItemsStored(|st.nodes|, Parent(st), seen);
      NothingFiled(st);
    } else {
      var m, rest := ms[0], ms[1..];
      assert m.val < m;
      var text := KeyText(m.key);
      var parent := Parent(st);
      var dup := IsDuplicate(parent, text, seen);
      MembersNext(lim, st, ms);
      MembersForms(parent, |st.nodes|, m, rest, seen);
      MembersStored(parent, |st.nodes|, m, rest, seen);
      KeyPushed(lim, st, m.key, seen, KeyCount(m.val) + KeyCountMembers(rest));
      KeyFiled(lim, st, m.key, seen, KeyCount(m.val) + KeyCountMembers(rest));
      var a := Push(lim, st, NewNode(AstLeaf, m.key));
      OneMore(st, a);
      var s0 := if Stored(parent, text, dup) then {|st.nodes|} else {};
      FiledMeans(st, a, s0, 1);
      KeyPending(st, a, m.key, dup);
      ReadyLess(lim, a, KeyCount(m.val) + KeyCountMembers(rest), KeyCount(m.val));
      MemberDoc(m);
      TreeBuilt(lim, a, m.val);
      TreeFiled(lim, a, m.val);
      var b := AddTree(lim, a, m.val);
      OneGrown(a, b, m.val);
      KeyAgain(st, a, b, m.val);
      GrownMeans(a, b, m.val);
      SeenKept(a.keys, b.keys, parent, seen + {text}, |a.nodes|, |b.nodes|);
      KeysBelowGrown(a, b, Len(m.val), KeyCount(m.val), |a.nodes|, lim, KeyCountMembers(rest));
      var s1 := StoredIn(|a.nodes|, Marked(|a.nodes|, m.val, SkipNext(a)));
      FiledMeans(a, b, s1, KeyCount(m.val));
      MembersFiled(lim, b, rest, seen + {text});
      var r := AddMembers(lim, b, rest);
      var s2 := StoredMembers(parent, |b.nodes|, MarkedMembers(parent, |b.nodes|, rest, seen + {text}));
      FiledTwice(st, a, b, s0, s1, 1, KeyCount(m.val));
      FiledTwice(st, b, r, s0 + s1, s2, 1 + KeyCount(m.val), KeyCountMembers(rest));
    }
  }

  lemma OneMore(st: St, a: St)
    requires StOk(st) && |st.scopes| >= 3 && Parent(st) >= 0 && Grown(st, a, 1, 1, Parent(st))
    ensures |a.nodes| == |st.nodes| + 1
  {
    hide StOk;
    hide KeysFrom;
  }

  lemma ArrayFiled(lim: Limits, st: St, t: Tree)
    requires Ready(lim, st, KeyCount(t)) && StOk(st) && ValueNext(st) && t.Arr? && Doc(t) && Filed(st)
    requires |st.tree| + KeyCount(t) <= lim.tree
    ensures OneFiled(st, AddTree(lim, st, t), StoredIn(|st.nodes|, Marked(|st.nodes|, t, SkipNext(st))), KeyCount(t))
    decreases t, 1
  {
    hide *;
    var o := OpenScope(Push(lim, st, NewNode(AstArray, BracketToken)));
    var r := AddItems(lim, o, t.items);
    ArrayForms(lim, st, t);
    OpenedFacts(lim, st, AstArray, BracketToken, KeyCount(t));
    OpenFiled(lim, st, AstArray, BracketToken);
    FiledMeans(st, o, {}, 0);
    ReadyLess(lim, o, KeyCount(t), KeyCount(t));
    OpenedArray(o, |st.nodes|, ParentIdx(st), SkipNext(st));
    ItemsFiled(lim, o, t.items);
    var s := StoredItems(|o.nodes|, MarkedItems(|o.nodes|, t.items));
    FiledTwice(st, o, r, {}, s, 0, KeyCount(t));
    assert {} + s == s;
    CloseFiled(st, r, s, KeyCount(t));
    ContainerStored(|st.nodes|, t, SkipNext(st));
  }

  lemma ContainerStored(at: nat, t: Tree, skip: bool)
    ensures t.Leaf? ==> StoredIn(at, Marked(at, t, skip)) == {}
    ensures t.Arr? ==> StoredIn(at, Marked(at, t, skip)) == StoredItems(at + 1, MarkedItems(at + 1, t.items))
    ensures t.Obj? ==> StoredIn(at, Marked(at, t, skip)) == StoredMembers(at, at + 1, MarkedMembers(at, at + 1, t.members, {}))
  {
    hide MarkedItems;
    hide MarkedMembers;
    hide StoredItems;
    hide StoredMembers;
  }

  lemma ObjectFiled(lim: Limits, st: St, t: Tree)
    requires Ready(lim, st, KeyCount(t)) && StOk(st) && ValueNext(st) && t.Obj? && Doc(t) && Filed(st)
    requires |st.tree| + KeyCount(t) <= lim.tree
    ensures OneFiled(st, AddTree(lim, st, t), StoredIn(|st.nodes|, Marked(|st.nodes|, t, SkipNext(st))), KeyCount(t))
    decreases t, 1
  {
    hide *;
    var o := OpenScope(Push(lim, st, NewNode(AstObject, BraceToken)));
    var r := AddMembers(lim, o, t.members);
    ObjectForms(lim, st, t);
    OpenedFacts(lim, st, AstObject, BraceToken, KeyCount(t));
    OpenFiled(lim, st, AstObject, BraceToken);
    FiledMeans(st, o, {}, 0);
    ReadyLess(lim, o, KeyCount(t), KeyCount(t));
    OpenedObject(o, |st.nodes|, ParentIdx(st), SkipNext(st));
    ReadyKeys(lim, st, KeyCount(t));
    SeenStart(o.keys, |st.nodes|, |st.nodes|);
    MembersFiled(lim, o, t.members, {});
    var s := StoredMembers(|st.nodes|, |o.nodes|, MarkedMembers(|st.nodes|, |o.nodes|, t.members, {}));
    FiledTwice(st, o, r, {}, s, 0, KeyCount(t));
    assert {} + s == s;
    CloseFiled(st, r, s, KeyCount(t));
    ContainerStored(|st.nodes|, t, SkipNext(st));
  }

  /** Building a value files its keys and leaves every other tree of the pool alone. */
  lemma {:induction false} TreeFiled(lim: Limits, st: St, t: Tree)
    requires Ready(lim, st, KeyCount(t)) && StOk(st) && ValueNext(st) && Doc(t) && Filed(st)
    requires |st.tree| + KeyCount(t) <= lim.tree
    ensures OneFiled(st, AddTree(lim, st, t), StoredIn(|st.nodes|, Marked(|st.nodes|, t, SkipNext(st))), KeyCount(t))
    decreases t, 2
  {
    hide *;
    match t {
      case Leaf(_, _) =>
        LeafFiled(lim, st, t);
        LeafCount(t);
        ContainerStored(|st.nodes|, t, SkipNext(st));
      case Arr(_, _) => ArrayFiled(lim, st, t);
      case Obj(_, _) => ObjectFiled(lim, st, t);
    }
  }

  lemma LeafCount(t: Tree)
    requires t.Leaf?
    ensures KeyCount(t) == 0
  {
  }

  // ---------------------------------------------------------------- reading the forest off

  /** The stored keys of one object, without those of the objects inside it. */
  function OwnKeys(parent: nat, pos: nat, ms: seq<Member>): set<nat>
    decreases ms
  {
    if ms == [] then {}
    else (if StoredKey(parent, ms[0]) then {pos} else {}) + OwnKeys(parent, pos + 1 + Len(ms[0].val), ms[1..])
  }

  /** The object's tree lists its stored keys and nothing else; if none has a NUL, in byte
      order, and keys with the same text in the order of the source. */
  ghost predicate SortedObject(pool: seq<Node>, tree: seq<KeyNode>, at: nat, ms: seq<Member>) {
    && at < |pool|
    && var list := InOrder(tree, pool[at].keyTreeRoot);
       && (forall j: nat :: j in list <==> j in OwnKeys(at, at + 1, ms))
       && (NulFree(pool, list) ==> Strict(pool, list))
  }

  /** So it is for every object of the value. */
  ghost predicate Sorted(pool: seq<Node>, tree: seq<KeyNode>, at: nat, t: Tree)
    decreases t
  {
    match t
    case Leaf(_, _) => true
    case Arr(_, items) => SortedItems(pool, tree, at + 1, items)
    case Obj(_, ms) => SortedObject(pool, tree, at, ms) && SortedMembers(pool, tree, at + 1, ms)
  }

  ghost predicate SortedItems(pool: seq<Node>, tree: seq<KeyNode>, pos: nat, items: seq<Tree>)
    decreases items
  {
    items == [] || (Sorted(pool, tree, pos, items[0]) && SortedItems(pool, tree, pos + Len(items[0]), items[1..]))
  }

  ghost predicate SortedMembers(pool: seq<Node>, tree: seq<KeyNode>, pos: nat, ms: seq<Member>)
    decreases ms
  {
    ms == [] ||
    (assert ms[0].val < ms[0];
     Sorted(pool, tree, pos + 1, ms[0].val) && SortedMembers(pool, tree, pos + 1 + Len(ms[0].val), ms[1..]))
  }

  /** Stored keys stand, and have their parents, inside the value. */
  lemma {:induction false} StoredInside(pool: seq<Node>, at: nat, t: Tree, parent: int)
    requires Built(pool, at, t, parent)
    ensures forall j :: j in StoredIn(at, t) ==> j < |pool| && at <= pool[j].parent < at + Len(t)
    decreases t, 1
  {
    hide BuiltItems;
    hide BuiltMembers;
    hide StoredItems;
    hide StoredMembers;
    match t {
      case Leaf(_, _) =>
      case Arr(_, items) => ItemsInside(pool, at + 1, items, at);
      case Obj(_, ms) => MembersInside(pool, at + 1, ms, at);
    }
  }

  lemma {:induction false} ItemsInside(pool: seq<Node>, pos: nat, items: seq<Tree>, parent: nat)
    requires BuiltItems(pool, pos, items, parent)
    ensures forall j :: j in StoredItems(pos, items) ==> j < |pool| && pos <= pool[j].parent < pos + ItemsLen(items)
    decreases items, 0
  {
    hide Built;
    hide StoredIn;
    hide Len;
    if items != [] {
      StoredInside(pool, pos, items[0], parent);
      ItemsInside(pool, pos + Len(items[0]), items[1..], parent);
    }
  }

  /** A stored key of the members is the object's own, or has its parent among them. */
  lemma {:induction false} MembersInside(pool: seq<Node>, pos: nat, ms: seq<Member>, parent: nat)
    requires BuiltMembers(pool, pos, ms, parent) && parent < pos
    ensures forall j :: j in StoredMembers(parent, pos, ms) ==>
              j < |pool| && (pool[j].parent == parent || pos <= pool[j].parent < pos + MembersLen(ms))
    ensures forall j :: j in OwnKeys(parent, pos, ms) <==> j in StoredMembers(parent, pos, ms) && j < |pool| && pool[j].parent == parent
    decreases ms, 0
  {
    hide Built;
    hide StoredIn;
    hide StoredKey;
    hide Len;
    if ms != [] {
      assert ms[0].val < ms[0];
      StoredInside(pool, pos + 1, ms[0].val, parent);
      MembersInside(pool, pos + 1 + Len(ms[0].val), ms[1..], parent);
    }
  }

  ghost predicate StoredUnder(pool: seq<Node>, tree: seq<KeyNode>, lo: nat, hi: nat, j: nat) {
    j in KeysIn(tree) && j < |pool| && lo <= pool[j].parent < hi
  }

  /** The stored keys with this parent are the object's own. */
  ghost predicate OwnComplete(pool: seq<Node>, tree: seq<KeyNode>, at: nat, ms: seq<Member>) {
    forall j: nat :: j in OwnKeys(at, at + 1, ms) <==> j in KeysIn(tree) && j < |pool| && pool[j].parent == at
  }

  lemma ObjectSorted(pool: seq<Node>, tree: seq<KeyNode>, at: nat, ms: seq<Member>)
    requires Forest(pool, tree) && at < |pool|
    requires OwnComplete(pool, tree, at, ms)
    ensures SortedObject(pool, tree, at, ms)
  {
    hide Reach;
    hide InOrder;
    hide Apart;
    hide NulFree;
    hide Strict;
    hide OwnKeys;
    var r := pool[at].keyTreeRoot;
    var list := InOrder(tree, r);
    assert OwnTree(pool, tree, at);
    forall j: nat ensures j in list <==> j in OwnKeys(at, at + 1, ms) {
      Listed(tree, r, j);
      if j in list {
        var k :| k in Reach(tree, r) && k < |tree| && tree[k].key == j;
        assert Owner(pool, tree, k) == at;
      }
      if j in OwnKeys(at, at + 1, ms) {
        KeyEntry(tree, j);
        var k: nat :| k < |tree| && tree[k].key == j;
        assert Housed(pool, tree, k);
      }
    }
  }

  lemma KeyEntry(tree: seq<KeyNode>, j: nat)
    requires j in KeysIn(tree)
    ensures exists k: nat :: k < |tree| && tree[k].key == j
  {
  }

  /** Under a value stand exactly the keys stored in it. */
  ghost predicate Complete(pool: seq<Node>, tree: seq<KeyNode>, at: nat, t: Tree) {
    forall j: nat :: j in StoredIn(at, t) <==> StoredUnder(pool, tree, at, at + Len(t), j)
  }

  ghost predicate CompleteItems(pool: seq<Node>, tree: seq<KeyNode>, pos: nat, items: seq<Tree>) {
    forall j: nat :: j in StoredItems(pos, items) <==> StoredUnder(pool, tree, pos, pos + ItemsLen(items), j)
  }

  ghost predicate CompleteMembers(pool: seq<Node>, tree: seq<KeyNode>, parent: nat, pos: nat, ms: seq<Member>) {
    forall j: nat :: j in StoredMembers(parent, pos, ms) && j < |pool| && pos <= pool[j].parent
                <==> StoredUnder(pool, tree, pos, pos + MembersLen(ms), j)
  }

  lemma ItemsSplit(pool: seq<Node>, tree: seq<KeyNode>, pos: nat, items: seq<Tree>, parent: nat)
    requires items != [] && BuiltItems(pool, pos, items, parent) && CompleteItems(pool, tree, pos, items)
    ensures Complete(pool, tree, pos, items[0])
    ensures CompleteItems(pool, tree, pos + Len(items[0]), items[1..])
  {
    hide Built;
    hide StoredIn;
    hide KeysIn;
    hide Len;
    StoredInside(pool, pos, items[0], parent);
    ItemsInside(pool, pos + Len(items[0]), items[1..], parent);
    forall j: nat ensures j in StoredIn(pos, items[0]) <==> StoredUnder(pool, tree, pos, pos + Len(items[0]), j) {
      assert j in StoredItems(pos, items) <==> StoredUnder(pool, tree, pos, pos + ItemsLen(items), j);
    }
    var next := pos + Len(items[0]);
    forall j: nat ensures j in StoredItems(next, items[1..]) <==> StoredUnder(pool, tree, next, next + ItemsLen(items[1..]), j) {
      assert j in StoredItems(pos, items) <==> StoredUnder(pool, tree, pos, pos + ItemsLen(items), j);
    }
  }

  lemma MembersSplit(pool: seq<Node>, tree: seq<KeyNode>, parent: nat, pos: nat, ms: seq<Member>)
    requires ms != [] && BuiltMembers(pool, pos, ms, parent) && parent < pos && CompleteMembers(pool, tree, parent, pos, ms)
    ensures Complete(pool, tree, pos + 1, ms[0].val)
    ensures CompleteMembers(pool, tree, parent, pos + 1 + Len(ms[0].val), ms[1..])
  {
    hide Built;
    hide StoredIn;
    hide KeysIn;
    hide StoredKey;
    hide Len;
    assert ms[0].val < ms[0];
    var v := ms[0].val;
    var next := pos + 1 + Len(v);
    StoredInside(pool, pos + 1, v, parent);
    MembersInside(pool, next, ms[1..], parent);
    MembersStoredForms(parent, pos, ms);
    var first := pos + 1;
    forall j: nat ensures j in StoredIn(first, v) <==> StoredUnder(pool, tree, first, next, j) {
      assert j in StoredMembers(parent, pos, ms) && j < |pool| && pos <= pool[j].parent
             <==> StoredUnder(pool, tree, pos, pos + MembersLen(ms), j);
    }
    forall j: nat ensures j in StoredMembers(parent, next, ms[1..]) && j < |pool| && next <= pool[j].parent
                          <==> StoredUnder(pool, tree, next, next + MembersLen(ms[1..]), j) {
      assert j in StoredMembers(parent, pos, ms) && j < |pool| && pos <= pool[j].parent
             <==> StoredUnder(pool, tree, pos, pos + MembersLen(ms), j);
    }
  }

  lemma MembersStoredForms(parent: nat, pos: nat, ms: seq<Member>)
    requires ms != []
    ensures MembersLen(ms) == 1 + Len(ms[0].val) + MembersLen(ms[1..])
    ensures forall j :: j in StoredMembers(parent, pos, ms) <==>
              (j == pos && StoredKey(parent, ms[0])) || j in StoredIn(pos + 1, ms[0].val)
              || j in StoredMembers(parent, pos + 1 + Len(ms[0].val), ms[1..])
  {
    hide StoredIn;
    hide StoredKey;
    hide Len;
    assert ms[0].val < ms[0];
  }

  lemma {:induction false} TreeSorted(pool: seq<Node>, tree: seq<KeyNode>, at: nat, t: Tree, parent: int)
    requires Forest(pool, tree) && Built(pool, at, t, parent) && Complete(pool, tree, at, t)
    ensures Sorted(pool, tree, at, t)
    decreases t, 1
  {
    hide Forest;
    hide KeysIn;
    hide BuiltItems;
    hide BuiltMembers;
    hide StoredItems;
    hide StoredMembers;
    hide SortedObject;
    hide OwnComplete;
    match t {
      case Leaf(_, _) =>
      case Arr(_, items) =>
        ArrayComplete(pool, tree, at, t, parent);
        ItemsSorted(pool, tree, at + 1, items, at);
      case Obj(_, ms) =>
        ObjectComplete(pool, tree, at, t, parent);
        ObjectSorted(pool, tree, at, ms);
        MembersSorted(pool, tree, at, at + 1, ms);
    }
  }

  lemma ArrayComplete(pool: seq<Node>, tree: seq<KeyNode>, at: nat, t: Tree, parent: int)
    requires t.Arr? && Built(pool, at, t, parent) && Complete(pool, tree, at, t)
    ensures CompleteItems(pool, tree, at + 1, t.items)
  {
    hide KeysIn;
    hide BuiltItems;
    hide StoredItems;
    ItemsInside(pool, at + 1, t.items, at);
    var first := at + 1;
    var next := first + ItemsLen(t.items);
    forall j: nat ensures j in StoredItems(first, t.items) <==> StoredUnder(pool, tree, first, next, j) {
      assert j in StoredIn(at, t) <==> StoredUnder(pool, tree, at, at + Len(t), j);
    }
  }

  lemma ObjectComplete(pool: seq<Node>, tree: seq<KeyNode>, at: nat, t: Tree, parent: int)
    requires t.Obj? && Built(pool, at, t, parent) && Complete(pool, tree, at, t)
    ensures CompleteMembers(pool, tree, at, at + 1, t.members)
    ensures OwnComplete(pool, tree, at, t.members)
  {
    hide KeysIn;
    hide BuiltMembers;
    hide StoredMembers;
    hide OwnKeys;
    var ms := t.members;
    MembersInside(pool, at + 1, ms, at);
    var first := at + 1;
    var next := first + MembersLen(ms);
    forall j: nat ensures j in StoredMembers(at, first, ms) <==> StoredUnder(pool, tree, at, next, j) {
      assert j in StoredIn(at, t) <==> StoredUnder(pool, tree, at, at + Len(t), j);
    }
  }

  lemma {:induction false} ItemsSorted(pool: seq<Node>, tree: seq<KeyNode>, pos: nat, items: seq<Tree>, parent: nat)
    requires Forest(pool, tree) && BuiltItems(pool, pos, items, parent) && CompleteItems(pool, tree, pos, items)
    ensures SortedItems(pool, tree, pos, items)
    decreases items, 0
  {
    hide Forest;
    hide KeysIn;
    hide Built;
    hide Sorted;
    hide CompleteItems;
    hide Complete;
    hide Len;
    if items != [] {
      ItemsSplit(pool, tree, pos, items, parent);
      TreeSorted(pool, tree, pos, items[0], parent);
      ItemsSorted(pool, tree, pos + Len(items[0]), items[1..], parent);
    }
  }

  lemma {:induction false} MembersSorted(pool: seq<Node>, tree: seq<KeyNode>, parent: nat, pos: nat, ms: seq<Member>)
    requires Forest(pool, tree) && BuiltMembers(pool, pos, ms, parent) && parent < pos
    requires CompleteMembers(pool, tree, parent, pos, ms)
    ensures SortedMembers(pool, tree, pos, ms)
    decreases ms, 0
  {
    hide Forest;
    hide KeysIn;
    hide Built;
    hide Sorted;
    hide CompleteMembers;
    hide Complete;
    hide Len;
    if ms != [] {
      assert ms[0].val < ms[0];
      MembersSplit(pool, tree, parent, pos, ms);
      TreeSorted(pool, tree, pos + 1, ms[0].val, parent);
      MembersSorted(pool, tree, parent, pos + 1 + Len(ms[0].val), ms[1..]);
    }
  }

  // ---------------------------------------------------------------- a parsed value

  /** The forest of the pool that holds only this value. */
  lemma AllSorted(lim: Limits, t: Tree)
    requires Doc(t) && KeyCount(t) <= lim.keys && KeyCount(t) <= lim.tree
    ensures var st := St([], [], {}, []);
            && StOk(st)
            && Sorted(AddTree(lim, st, t).nodes, AddTree(lim, st, t).tree, 0, Marked(0, t, false))
            && |AddTree(lim, st, t).tree| <= KeyCount(t)
  {
    hide AddTree;
    hide Built;
    hide Marked;
    hide KeyCount;
    hide Doc;
    hide Forest;
    hide StOk;
    hide Sorted;
    hide Complete;
    var st := St([], [], {}, []);
    EmptyFiled();
    KeysSame({}, 0, 0);
    TreeBuilt(lim, st, t);
    TreeFiled(lim, st, t);
    var r := AddTree(lim, st, t);
    var m := Marked(0, t, false);
    MarkedLen(0, t, false);
    AllComplete(r.nodes, r.tree, m);
    TreeSorted(r.nodes, r.tree, 0, m, -1);
  }

  lemma EmptyFiled()
    ensures StOk(St([], [], {}, [])) && Filed(St([], [], {}, [])) && ValueNext(St([], [], {}, [])) && KeysIn([]) == {}
    ensures !SkipNext(St([], [], {}, [])) && ParentIdx(St([], [], {}, [])) == -1
  {
  }

  lemma AllComplete(pool: seq<Node>, tree: seq<KeyNode>, m: Tree)
    requires Forest(pool, tree) && KeysIn(tree) == StoredIn(0, m) && |pool| == Len(m)
    ensures Complete(pool, tree, 0, m)
  {
    hide Reach;
    hide OwnTree;
    hide StoredIn;
    hide Len;
    forall j: nat ensures j in StoredIn(0, m) <==> StoredUnder(pool, tree, 0, Len(m), j) {
      if j in StoredIn(0, m) {
        var k: nat :| k < |tree| && tree[k].key == j;
        assert Housed(pool, tree, k);
      }
    }
  }

  // ---------------------------------------------------------------- canonical order

  function Texts(pool: seq<Node>, list: seq<nat>): (r: seq<bytes>)
    ensures |r| == |list|
  {
    if list == [] then [] else [TextAt(pool, list[0])] + Texts(pool, list[1..])
  }

  ghost predicate HasText(pool: seq<Node>, keys: set<nat>, x: bytes) {
    exists p :: p in keys && TextAt(pool, p) == x
  }

  ghost predicate SameTexts(a: seq<Node>, s: set<nat>, b: seq<Node>, t: set<nat>) {
    forall x: bytes :: HasText(a, s, x) <==> HasText(b, t, x)
  }

  ghost predicate Increasing(s: seq<bytes>) {
    forall a, b :: 0 <= a < b < |s| ==> Less(s[a], s[b])
  }

  lemma {:induction false} TextsAt(pool: seq<Node>, list: seq<nat>)
    ensures forall i :: 0 <= i < |list| ==> Texts(pool, list)[i] == TextAt(pool, list[i])
  {
    hide TextAt;
    if list != [] {
      TextsAt(pool, list[1..]);
    }
  }

  /** Strictly increasing sequences with the same elements are equal. */
  lemma {:induction false} IncreasingUnique(s: seq<bytes>, t: seq<bytes>)
    requires Increasing(s) && Increasing(t) && forall x :: x in s <==> x in t
    ensures s == t
  {
    hide Less;
    if s == [] {
      NoElements(t);
    } else {
      assert s[0] in s;
      var i :| 0 <= i < |t| && t[i] == s[0];
      assert t[0] in t;
      var k :| 0 <= k < |s| && s[k] == t[0];
      FirstsAgree(s, t, i, k);
      TailSame(s, t);
      TailSame(t, s);
      IncreasingUnique(s[1..], t[1..]);
      assert s == [s[0]] + s[1..] && t == [t[0]] + t[1..];
    }
  }

  lemma NoElements(t: seq<bytes>)
    ensures t == [] || exists x :: x in t
  {
    if t != [] {
      assert t[0] in t;
    }
  }

  lemma FirstsAgree(s: seq<bytes>, t: seq<bytes>, i: nat, k: nat)
    requires Increasing(s) && Increasing(t) && i < |t| && k < |s| && t[i] == s[0] && s[k] == t[0]
    ensures s[0] == t[0]
  {
    hide Less;
    if i > 0 && k > 0 {
      LessTransitive(s[0], s[k], t[i]);
      LessIrreflexive(s[0]);
    }
  }

  lemma TailSame(s: seq<bytes>, t: seq<bytes>)
    requires Increasing(s) && Increasing(t) && s != [] && t != [] && s[0] == t[0] && forall x :: x in s <==> x in t
    ensures Increasing(s[1..]) && forall x :: x in s[1..] ==> x in t[1..]
  {
    hide Less;
    forall x | x in s[1..] ensures x in t[1..] {
      var i :| 0 <= i < |s[1..]| && s[1..][i] == x;
      assert s[i + 1] == x && Less(s[0], x);
      LessIrreflexive(x);
      assert x in t;
      assert t == [t[0]] + t[1..];
    }
  }

  ghost predicate Nondecreasing(s: seq<bytes>) {
    forall a, b :: 0 <= a < b < |s| ==> s[a] == s[b] || Less(s[a], s[b])
  }

  /** The listing of an object whose stored keys are free of NUL is non-decreasing, and
      strictly increasing exactly when no two of these keys have the same text. */
  lemma ListingExact(pool: seq<Node>, tree: seq<KeyNode>, at: nat, ms: seq<Member>)
    requires SortedObject(pool, tree, at, ms) && NulFree(pool, InOrder(tree, pool[at].keyTreeRoot))
    ensures Nondecreasing(Texts(pool, InOrder(tree, pool[at].keyTreeRoot)))
    ensures Increasing(Texts(pool, InOrder(tree, pool[at].keyTreeRoot))) <==>
            forall p, q :: p in OwnKeys(at, at + 1, ms) && q in OwnKeys(at, at + 1, ms) && p != q ==> TextAt(pool, p) != TextAt(pool, q)
  {
    hide InOrder;
    hide NulFree;
    hide TextAt;
    hide OwnKeys;
    hide Texts;
    hide Less;
    var list := InOrder(tree, pool[at].keyTreeRoot);
    TextsAt(pool, list);
    assert Nondecreasing(Texts(pool, list)) by { OrderedTexts(pool, list); }
    OrderedTexts(pool, list);
    if Increasing(Texts(pool, list)) {
      forall p, q | p in OwnKeys(at, at + 1, ms) && q in OwnKeys(at, at + 1, ms) && p != q ensures TextAt(pool, p) != TextAt(pool, q) {
        assert p in list && q in list;
        var i :| 0 <= i < |list| && list[i] == p;
        var k :| 0 <= k < |list| && list[k] == q;
        IncreasingDiffer(Texts(pool, list), i, k);
      }
    }
    if forall p, q :: p in OwnKeys(at, at + 1, ms) && q in OwnKeys(at, at + 1, ms) && p != q ==> TextAt(pool, p) != TextAt(pool, q) {
      forall i, k | 0 <= i < k < |list| ensures Less(Texts(pool, list)[i], Texts(pool, list)[k]) {
        assert Precedes(pool, list[i], list[k]);
        PrecedesIrreflexive(pool, list[i]);
        assert list[i] in list && list[k] in list;
      }
    }
  }

  lemma IncreasingDiffer(s: seq<bytes>, i: nat, k: nat)
    requires Increasing(s) && i < |s| && k < |s| && i != k
    ensures s[i] != s[k]
  {
    hide Less;
    LessIrreflexive(s[i]);
  }

  lemma OrderedTexts(pool: seq<Node>, list: seq<nat>)
    requires Strict(pool, list)
    ensures Nondecreasing(Texts(pool, list))
  {
    hide TextAt;
    hide Texts;
    hide Less;
    TextsAt(pool, list);
    var s := Texts(pool, list);
    forall a, b | 0 <= a < b < |s| ensures s[a] == s[b] || Less(s[a], s[b]) {
      assert Precedes(pool, list[a], list[b]);
    }
  }

  // ---------------------------------------------------------------- repeated texts

  /** One key of each text: the last that is listed with it. */
  function Finals(pool: seq<Node>, list: seq<nat>): (r: seq<nat>)
    ensures |r| <= |list| && (list != [] ==> r != [] && r[|r| - 1] == list[|list| - 1])
  {
    if list == [] then []
    else
      var n := |list| - 1;
      var r := Finals(pool, list[..n]);
      if r != [] && TextAt(pool, r[|r| - 1]) == TextAt(pool, list[n]) then r[..|r| - 1] + [list[n]] else r + [list[n]]
  }

  /** The chosen keys, by text. */
  ghost predicate ByText(pool: seq<Node>, list: seq<nat>) {
    forall a, b :: 0 <= a < b < |list| ==> Less(TextAt(pool, list[a]), TextAt(pool, list[b]))
  }

  /** Every listed key has a chosen one of its text, not before it. */
  ghost predicate Chosen(pool: seq<Node>, list: seq<nat>, chosen: seq<nat>) {
    && (forall j :: j in chosen ==> j in list)
    && forall j :: j in list ==> HasLater(pool, chosen, j)
  }

  ghost predicate HasLater(pool: seq<Node>, chosen: seq<nat>, j: nat) {
    exists f :: f in chosen && TextAt(pool, f) == TextAt(pool, j) && j <= f
  }

  lemma {:induction false} FinalsAre(pool: seq<Node>, list: seq<nat>)
    requires Strict(pool, list)
    ensures ByText(pool, Finals(pool, list)) && Chosen(pool, list, Finals(pool, list))
    decreases |list|
  {
    hide TextAt;
    hide Less;
    if list != [] {
      var n := |list| - 1;
      var x := list[n];
      var before := list[..n];
      assert Strict(pool, before);
      FinalsAre(pool, before);
      var r, all := Finals(pool, before), Finals(pool, list);
      assert list == before + [x];
      if before != [] {
        assert Precedes(pool, list[n - 1], x);
      }
      FinalsOrdered(pool, r, x, all);
      forall j | j in list ensures HasLater(pool, all, j) {
        FinalsLater(pool, before, x, r, all, j);
      }
    }
  }

  /** The step for the order: the new key replaces the last of its text or follows it. */
  lemma FinalsOrdered(pool: seq<Node>, r: seq<nat>, x: nat, all: seq<nat>)
    requires ByText(pool, r) && (r != [] ==> Precedes(pool, r[|r| - 1], x))
    requires all == if r != [] && TextAt(pool, r[|r| - 1]) == TextAt(pool, x) then r[..|r| - 1] + [x] else r + [x]
    ensures ByText(pool, all)
  {
    hide TextAt;
    hide Less;
    forall a, b | 0 <= a < b < |all| ensures Less(TextAt(pool, all[a]), TextAt(pool, all[b])) {
      assert all[a] == r[a];
      if b < |all| - 1 {
        assert all[b] == r[b];
      } else {
        assert all[b] == x;
        var last := |r| - 1;
        if a < last {
          assert Less(TextAt(pool, r[a]), TextAt(pool, r[last]));
          if TextAt(pool, r[last]) != TextAt(pool, x) {
            LessTransitive(TextAt(pool, r[a]), TextAt(pool, r[last]), TextAt(pool, x));
          }
        }
      }
    }
  }

  lemma FinalsLater(pool: seq<Node>, before: seq<nat>, x: nat, r: seq<nat>, all: seq<nat>, j: nat)
    requires Chosen(pool, before, r) && (r != [] ==> Precedes(pool, r[|r| - 1], x)) && (j in before || j == x)
    requires all == if r != [] && TextAt(pool, r[|r| - 1]) == TextAt(pool, x) then r[..|r| - 1] + [x] else r + [x]
    ensures HasLater(pool, all, j)
  {
    hide TextAt;
    hide Less;
    hide Precedes;
    assert all[|all| - 1] == x;
    assert x in all;
    if j in before {
      assert HasLater(pool, r, j);
      var f :| f in r && TextAt(pool, f) == TextAt(pool, j) && j <= f;
      var i :| 0 <= i < |r| && r[i] == f;
      if i < |all| - 1 {
        assert all[i] == f;
        assert f in all;
      } else {
        SameTextLater(pool, f, x);
      }
    }
  }

  lemma SameTextLater(pool: seq<Node>, a: nat, b: nat)
    requires Precedes(pool, a, b) && TextAt(pool, a) == TextAt(pool, b)
    ensures a < b
  {
    hide TextAt;
    LessIrreflexive(TextAt(pool, a));
  }

  /** A chosen key is the last of its text in the source. */
  lemma FinalIsLast(pool: seq<Node>, list: seq<nat>, f: nat, j: nat)
    requires Strict(pool, list) && f in Finals(pool, list) && j in list && TextAt(pool, j) == TextAt(pool, f)
    ensures j <= f && f in list
  {
    hide TextAt;
    hide Less;
    hide Finals;
    FinalsAre(pool, list);
    var r := Finals(pool, list);
    assert HasLater(pool, r, j);
    var g :| g in r && TextAt(pool, g) == TextAt(pool, j) && j <= g;
    OnePerText(pool, r, f, g);
  }

  lemma OnePerText(pool: seq<Node>, list: seq<nat>, f: nat, g: nat)
    requires ByText(pool, list) && f in list && g in list && TextAt(pool, f) == TextAt(pool, g)
    ensures f == g
  {
    hide TextAt;
    hide Less;
    LessIrreflexive(TextAt(pool, f));
  }

  /** Without repeated texts every key is chosen. */
  lemma {:induction false} AllFinal(pool: seq<Node>, list: seq<nat>)
    requires ByText(pool, list)
    ensures Finals(pool, list) == list
    decreases |list|
  {
    hide *;
    if list == [] {
      NoFinals(pool);
    } else {
      var n := |list| - 1;
      ByTextPrefix(pool, list);
      AllFinal(pool, list[..n]);
      FinalsStep(pool, list);
      assert list == list[..n] + [list[n]];
    }
  }

  lemma NoFinals(pool: seq<Node>)
    ensures Finals(pool, []) == []
  {
  }

  lemma FinalsStep(pool: seq<Node>, list: seq<nat>)
    requires list != []
    ensures var n := |list| - 1;
            var r := Finals(pool, list[..n]);
            Finals(pool, list) == if r != [] && TextAt(pool, r[|r| - 1]) == TextAt(pool, list[n]) then r[..|r| - 1] + [list[n]] else r + [list[n]]
  {
    hide TextAt;
  }

  lemma ByTextPrefix(pool: seq<Node>, list: seq<nat>)
    requires ByText(pool, list) && list != []
    ensures ByText(pool, list[..|list| - 1])
    ensures |list| > 1 ==> TextAt(pool, list[|list| - 2]) != TextAt(pool, list[|list| - 1])
  {
    hide TextAt;
    hide Less;
    var n := |list| - 1;
    if n > 0 {
      LessIrreflexive(TextAt(pool, list[n]));
      assert Less(TextAt(pool, list[n - 1]), TextAt(pool, list[n]));
    }
  }

  /** Two parsed objects with the same key texts list the same texts, whatever the source
      order and however often a text is repeated, in whichever pools they are. */
  lemma CanonicalOrder(a: seq<Node>, ta: seq<KeyNode>, i: nat, ms: seq<Member>, b: seq<Node>, tb: seq<KeyNode>, j: nat, ns: seq<Member>)
    requires SortedObject(a, ta, i, ms) && SortedObject(b, tb, j, ns)
    requires NulFree(a, InOrder(ta, a[i].keyTreeRoot)) && NulFree(b, InOrder(tb, b[j].keyTreeRoot))
    requires SameTexts(a, OwnKeys(i, i + 1, ms), b, OwnKeys(j, j + 1, ns))
    ensures Texts(a, Finals(a, InOrder(ta, a[i].keyTreeRoot))) == Texts(b, Finals(b, InOrder(tb, b[j].keyTreeRoot)))
  {
    hide InOrder;
    hide NulFree;
    hide TextAt;
    hide OwnKeys;
    hide Texts;
    hide Finals;
    hide Less;
    var la, lb := InOrder(ta, a[i].keyTreeRoot), InOrder(tb, b[j].keyTreeRoot);
    FinalTexts(a, la, OwnKeys(i, i + 1, ms));
    FinalTexts(b, lb, OwnKeys(j, j + 1, ns));
    IncreasingUnique(Texts(a, Finals(a, la)), Texts(b, Finals(b, lb)));
  }

  lemma FinalTexts(pool: seq<Node>, list: seq<nat>, keys: set<nat>)
    requires Strict(pool, list) && forall j: nat :: j in list <==> j in keys
    ensures Increasing(Texts(pool, Finals(pool, list)))
    ensures forall x: bytes :: x in Texts(pool, Finals(pool, list)) <==> HasText(pool, keys, x)
  {
    hide TextAt;
    hide Texts;
    hide Finals;
    hide Less;
    var r := Finals(pool, list);
    FinalsAre(pool, list);
    TextsAt(pool, r);
    ElementsAre(pool, r, set j | j in r);
    forall x: bytes ensures x in Texts(pool, r) <==> HasText(pool, keys, x) {
      if HasText(pool, keys, x) {
        var p :| p in keys && TextAt(pool, p) == x;
        assert HasLater(pool, r, p);
      }
    }
  }

  lemma ElementsAre(pool: seq<Node>, list: seq<nat>, keys: set<nat>)
    requires forall j: nat :: j in list <==> j in keys
    ensures forall x: bytes :: x in Texts(pool, list) <==> HasText(pool, keys, x)
  {
    hide TextAt;
    hide Texts;
    TextsAt(pool, list);
    forall x: bytes ensures x in Texts(pool, list) <==> HasText(pool, keys, x) {
      if x in Texts(pool, list) {
        var k :| 0 <= k < |list| && Texts(pool, list)[k] == x;
        assert list[k] in list;
      }
      if p :| p in keys && TextAt(pool, p) == x {
        var k :| 0 <= k < |list| && list[k] == p;
        assert Texts(pool, list)[k] == x;
      }
    }
  }
}
