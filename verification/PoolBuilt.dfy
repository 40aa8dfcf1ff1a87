/** Building a value yields its marked preorder flattening, whatever was built before. */
module PoolBuilt {
  import opened Bytes
  import opened Ast
  import opened Keywords
  import opened Grammar
  import opened KeyTree
  import opened KeySet
  import opened ScopedKeys
  import opened Building
  import opened PoolShape

  // ---------------------------------------------------------------- keys seen

  /** `b` has the keys of `a` and keys of objects in [lo, hi) only. */
  ghost predicate KeysFrom(a: set<bytes>, b: set<bytes>, lo: nat, hi: nat) {
    && a <= b
    && forall k :: k in b && k !in a ==> ScopedIn(k, lo, hi)
  }

  ghost predicate ScopedIn(k: bytes, lo: nat, hi: nat) {
    exists p: nat, text: bytes :: lo <= p < hi && k == Scoped(p, text)
  }

  lemma ScopedWiden(k: bytes, lo: nat, hi: nat, lo2: nat, hi2: nat)
    requires ScopedIn(k, lo, hi) && lo2 <= lo && hi <= hi2
    ensures ScopedIn(k, lo2, hi2)
  {
    hide Scoped;
  }

  lemma KeysTrans(a: set<bytes>, b: set<bytes>, c: set<bytes>, lo: nat, mid: nat, lo2: nat, hi: nat)
    requires KeysFrom(a, b, lo, mid) && KeysFrom(b, c, lo2, hi) && lo <= lo2 && mid <= hi
    ensures KeysFrom(a, c, lo, hi)
  {
    hide ScopedIn;
    forall k | k in c && k !in a ensures ScopedIn(k, lo, hi) {
      if k in b {
        ScopedWiden(k, lo, mid, lo, hi);
      } else {
        ScopedWiden(k, lo2, hi, lo, hi);
      }
    }
  }

  /** A key of a later object is not among those of earlier ones. */
  lemma NotScopedIn(p: nat, text: bytes, lo: nat, hi: nat)
    requires p < lo || hi <= p
    ensures !ScopedIn(Scoped(p, text), lo, hi)
  {
    hide Scoped;
    if ScopedIn(Scoped(p, text), lo, hi) {
      var q: nat, t: bytes :| lo <= q < hi && Scoped(p, text) == Scoped(q, t);
      ScopedInjective(p, text, q, t);
    }
  }

  /** The texts of the object's keys so far. */
  ghost predicate SeenIs(keys: set<bytes>, parent: nat, seen: set<bytes>) {
    forall text: bytes :: |Scoped(parent, text)| <= MAX_KEY_LEN ==> (Scoped(parent, text) in keys <==> text in seen)
  }

  lemma SeenStart(keys: set<bytes>, n: nat, parent: nat)
    requires KeysFrom({}, keys, 0, n) && n <= parent
    ensures SeenIs(keys, parent, {})
  {
    hide Scoped;
    hide ScopedIn;
    forall text: bytes ensures Scoped(parent, text) !in keys {
      NotScopedIn(parent, text, 0, n);
    }
  }

  lemma SeenKept(a: set<bytes>, b: set<bytes>, parent: nat, seen: set<bytes>, lo: nat, hi: nat)
    requires SeenIs(a, parent, seen) && KeysFrom(a, b, lo, hi) && parent < lo
    ensures SeenIs(b, parent, seen)
  {
    hide Scoped;
    hide ScopedIn;
    forall text: bytes | |Scoped(parent, text)| <= MAX_KEY_LEN ensures Scoped(parent, text) in b <==> text in seen {
      NotScopedIn(parent, text, lo, hi);
    }
  }

  lemma SeenAdd(keys: set<bytes>, parent: nat, seen: set<bytes>, text: bytes)
    requires SeenIs(keys, parent, seen)
    ensures SeenIs(if |Scoped(parent, text)| <= MAX_KEY_LEN then keys + {Scoped(parent, text)} else keys, parent, seen + {text})
  {
    hide Scoped;
    forall t: bytes | Scoped(parent, t) == Scoped(parent, text) ensures t == text {
      ScopedInjective(parent, t, parent, text);
    }
  }

  /** How many keys a value has. */
  function KeyCount(t: Tree): nat
    decreases t
  {
    match t
    case Leaf(_, _) => 0
    case Arr(_, items) => KeyCountItems(items)
    case Obj(_, ms) => KeyCountMembers(ms)
  }

  function KeyCountItems(items: seq<Tree>): nat
    decreases items
  {
    if items == [] then 0 else KeyCount(items[0]) + KeyCountItems(items[1..])
  }

  function KeyCountMembers(ms: seq<Member>): nat
    decreases ms
  {
    if ms == [] then 0 else assert ms[0].val < ms[0]; 1 + KeyCount(ms[0].val) + KeyCountMembers(ms[1..])
  }

  // ---------------------------------------------------------------- one new node

  ghost function ParentIdx(st: St): int {
    if |st.scopes| < 3 then -1 else Parent(st)
  }

  /** Whether a value pushed now belongs to a skipped key. */
  ghost predicate SkipNext(st: St)
    requires StOk(st)
  {
    ScopeFacts(st);
    |st.scopes| >= 3 && st.nodes[Parent(st)].tok.kind == TBraceOpen && Count(st) % 2 != 0 && Tail(st) != -1
    && st.nodes[Tail(st)].kind == AstSkipped
  }

  lemma ScopeFacts(st: St)
    requires StOk(st)
    ensures |st.scopes| >= 3 ==> 0 <= Parent(st) < |st.nodes| && -1 <= Tail(st) < |st.nodes| && Count(st) >= 0
  {
    hide Forward;
    if |st.scopes| >= 3 {
      ScopesMean(st);
    }
  }

  /** A value, not a key, is expected next. */
  ghost predicate ValueNext(st: St)
    requires StOk(st)
  {
    ScopeFacts(st);
    |st.scopes| < 3 || st.nodes[Parent(st)].tok.kind != TBraceOpen || Count(st) % 2 != 0
  }

  ghost predicate KeyNext(st: St)
    requires StOk(st)
  {
    ScopeFacts(st);
    |st.scopes| >= 3 && st.nodes[Parent(st)].tok.kind == TBraceOpen && Count(st) % 2 == 0
  }

  /** The earlier nodes once a child has been hung below the open container. */
  ghost function Hung(st: St): (r: seq<Node>)
    requires StOk(st)
    ensures |r| == |st.nodes|
  {
    ScopeFacts(st);
    if |st.scopes| < 3 then st.nodes
    else if Tail(st) == -1 then st.nodes[Parent(st) := st.nodes[Parent(st)].(firstChild := |st.nodes|)]
    else st.nodes[Tail(st) := st.nodes[Tail(st)].(nextSibling := |st.nodes|)]
  }

  ghost function Advanced(st: St): seq<int> {
    if |st.scopes| < 3 then st.scopes
    else st.scopes[|st.scopes| - 2 := |st.nodes|][|st.scopes| - 1 := Count(st) + 1]
  }

  lemma PushValue(lim: Limits, st: St, n: Node)
    requires StOk(st) && ValueNext(st) && n.keyTreeRoot == -1 && n.parent == -1
    ensures var r := Push(lim, st, n);
            && SameSpan(r.nodes, Hung(st), 0, |st.nodes|) && r.scopes == Advanced(st) && r.keys == st.keys
            && r.nodes[|st.nodes|] == n.(parent := ParentIdx(st), kind := if SkipNext(st) then AstSkipped else n.kind)
  {
    hide Forward;
    hide ScopesOk;
    hide EnterKey;
    ScopeFacts(st);
  }

  lemma PushKey(lim: Limits, st: St, n: Node)
    requires StOk(st) && KeyNext(st) && n.keyTreeRoot == -1 && |st.keys| < lim.keys
    ensures var r := Push(lim, st, n);
            var key := Scoped(Parent(st), KeyText(n.tok));
            var dup := |key| <= MAX_KEY_LEN && key in st.keys;
            && SameSpan(r.nodes, Hung(st), 0, |st.nodes|) && r.scopes == Advanced(st)
            && r.nodes[|st.nodes|] == n.(parent := Parent(st), kind := if dup then AstSkipped else n.kind)
            && r.keys == (if |key| <= MAX_KEY_LEN then st.keys + {key} else st.keys)
  {
    hide Forward;
    hide ScopesOk;
    hide Scoped;
    hide KeyText;
    hide KeyInsert;
    ScopeFacts(st);
  }

  // ---------------------------------------------------------------- a whole value

  ghost predicate Ready(lim: Limits, st: St, keys: nat) {
    && StOk(st)
    && KeysFrom({}, st.keys, 0, |st.nodes|)
    && |st.keys| + keys <= lim.keys
  }

  /** `n` more nodes and at most `keys` more keys, all of objects from `lo` on. */
  ghost predicate Grown(st: St, r: St, n: nat, keys: nat, lo: nat)
    requires StOk(st)
  {
    && StOk(r)
    && |r.nodes| == |st.nodes| + n
    && KeysFrom(st.keys, r.keys, lo, |r.nodes|)
    && |r.keys| <= |st.keys| + keys
  }

  /** After one value: it is built behind the earlier nodes, and hangs where it should. */
  ghost predicate OneBuilt(st: St, r: St, t: Tree)
    requires StOk(st)
  {
    && Grown(st, r, Len(t), KeyCount(t), |st.nodes|)
    && Built(r.nodes, |st.nodes|, Marked(|st.nodes|, t, SkipNext(st)), ParentIdx(st))
    && r.nodes[|st.nodes|].nextSibling == -1
    && SameSpan(r.nodes, Hung(st), 0, |st.nodes|)
    && r.scopes == Advanced(st)
  }

  lemma KeysBelowGrown(st: St, r: St, n: nat, keys: nat, lo: nat, lim: Limits, more: nat)
    requires Ready(lim, st, keys + more) && StOk(st) && Grown(st, r, n, keys, lo)
    ensures Ready(lim, r, more)
  {
    hide StOk;
    KeysTrans({}, st.keys, r.keys, 0, |st.nodes|, lo, |r.nodes|);
  }

  lemma LeafBuilt(lim: Limits, st: St, t: Tree)
    requires Ready(lim, st, 0) && ValueNext(st) && t.Leaf?
    ensures OneBuilt(st, AddTree(lim, st, t), t)
  {
    hide StOk;
    hide Push;
    hide Hung;
    hide Advanced;
    PushValue(lim, st, NewNode(AstLeaf, t.tok));
    KeysSame(st.keys, |st.nodes|, |st.nodes| + 1);
  }

  lemma KeysSame(a: set<bytes>, lo: nat, hi: nat)
    ensures KeysFrom(a, a, lo, hi)
  {
  }

  /** The state inside a container that was just opened. */
  lemma OpenedFacts(lim: Limits, st: St, kind: NodeKind, tok: Token, keys: nat)
    requires Ready(lim, st, keys) && ValueNext(st)
    ensures var o := OpenScope(Push(lim, st, NewNode(kind, tok)));
            && Ready(lim, o, keys) && |o.scopes| >= 3 && |o.nodes| == |st.nodes| + 1
            && Parent(o) == |st.nodes| && Tail(o) == -1 && Count(o) == 0
            && o.scopes[..|o.scopes| - 3] == Advanced(st)
            && o.keys == st.keys
            && SameSpan(o.nodes, Hung(st), 0, |st.nodes|)
            && o.nodes[|st.nodes|] == NewNode(kind, tok).(parent := ParentIdx(st), kind := if SkipNext(st) then AstSkipped else kind)
  {
    hide StOk;
    hide Push;
    hide Hung;
    hide Advanced;
    PushValue(lim, st, NewNode(kind, tok));
    var p := Push(lim, st, NewNode(kind, tok));
    var o := OpenScope(p);
    assert o.scopes == p.scopes + [|p.nodes| - 1, -1, 0];
    assert o.scopes[..|o.scopes| - 3] == p.scopes;
    KeysSame(st.keys, |st.nodes|, |st.nodes| + 1);
    KeysTrans({}, st.keys, st.keys, 0, |st.nodes|, |st.nodes|, |st.nodes| + 1);
  }

  /** After the children of container `parent`, opened with state `st`. */
  ghost predicate ChildrenGrown(st: St, r: St, n: nat, keys: nat)
    requires StOk(st) && |st.scopes| >= 3 && Parent(st) >= 0
  {
    && Grown(st, r, n, keys, Parent(st))
    && |r.scopes| == |st.scopes| && r.scopes[..|r.scopes| - 3] == st.scopes[..|st.scopes| - 3] && Parent(r) == Parent(st)
    && SameSpan(r.nodes, if n == 0 then st.nodes else Hung(st), 0, |st.nodes|)
  }

  /** The frame of one more child and the children after it. */
  lemma HungNext(st: St, r1: St, r: St, n: nat, m: nat, keys: nat)
    requires StOk(st) && StOk(r1) && |st.scopes| >= 3 && |r1.nodes| == |st.nodes| + n && n >= 1
    requires |r1.scopes| >= 3 && Parent(r1) >= 0
    requires r1.scopes == Advanced(st) && SameSpan(r1.nodes, Hung(st), 0, |st.nodes|)
    requires ChildrenGrown(r1, r, m, keys)
    ensures SameSpan(r.nodes, Hung(st), 0, |st.nodes|)
    ensures |r.scopes| == |st.scopes| && r.scopes[..|r.scopes| - 3] == st.scopes[..|st.scopes| - 3] && Parent(r) == Parent(st)
    ensures SameTree1(r1.nodes, r.nodes, |st.nodes|, n)
    ensures r.nodes[|st.nodes|].nextSibling == if m == 0 then r1.nodes[|st.nodes|].nextSibling else |r1.nodes|
    ensures Parent(r1) == Parent(st)
  {
    hide StOk;
    hide KeysFrom;
    ScopeFacts(st);
    ScopeFacts(r1);
    var i := |st.nodes|;
    assert Tail(r1) == i;
    assert r1.scopes[..|r1.scopes| - 3] == st.scopes[..|st.scopes| - 3];
    var h := if m == 0 then r1.nodes else Hung(r1);
    assert SameSpan(r.nodes, h, 0, |r1.nodes|);
    assert Bare(r.nodes[i]) == Bare(h[i]);
    assert SameSpan(r1.nodes, r.nodes, i + 1, i + n) by {
      forall q | i + 1 <= q < i + n ensures Bare(r1.nodes[q]) == Bare(r.nodes[q]) {
        assert Bare(r.nodes[q]) == Bare(h[q]);
      }
    }
    forall q | 0 <= q < i ensures Bare(r.nodes[q]) == Bare(Hung(st)[q]) {
      assert Bare(r.nodes[q]) == Bare(h[q]);
      assert Bare(r1.nodes[q]) == Bare(Hung(st)[q]);
    }
  }

  lemma GrownTwice(st: St, r1: St, r: St, n: nat, m: nat, a: nat, b: nat, lo: nat, lo1: nat, lo2: nat)
    requires StOk(st) && StOk(r1) && Grown(st, r1, n, a, lo1) && Grown(r1, r, m, b, lo2) && lo <= lo1 && lo <= lo2
    ensures Grown(st, r, n + m, a + b, lo)
  {
    hide StOk;
    hide ScopedIn;
    forall k | k in r1.keys && k !in st.keys ensures ScopedIn(k, lo, |r.nodes|) {
      ScopedWiden(k, lo1, |r1.nodes|, lo, |r.nodes|);
    }
    forall k | k in r.keys && k !in r1.keys ensures ScopedIn(k, lo, |r.nodes|) {
      ScopedWiden(k, lo2, |r.nodes|, lo, |r.nodes|);
    }
  }

  lemma JoinItem(st: St, r1: St, r: St, x: Tree, rest: seq<Tree>)
    requires StOk(st) && StOk(r1) && |st.scopes| >= 3 && Parent(st) >= 0 && !SkipNext(st)
    requires OneBuilt(st, r1, x) && |r1.scopes| >= 3 && Parent(r1) == Parent(st) < |st.nodes|
    requires ChildrenGrown(r1, r, ItemsLen(rest), KeyCountItems(rest))
    requires BuiltItems(r.nodes, |r1.nodes|, MarkedItems(|r1.nodes|, rest), Parent(st))
    ensures ChildrenGrown(st, r, ItemsLen([x] + rest), KeyCountItems([x] + rest))
    ensures BuiltItems(r.nodes, |st.nodes|, MarkedItems(|st.nodes|, [x] + rest), Parent(st))
  {
    hide StOk;
    hide KeysFrom;
    hide Built;
    hide Marked;
    hide SameTree1;
    hide SameSpan;
    hide Advanced;
    hide Hung;
    hide SkipNext;
    var i, n := |st.nodes|, Len(x);
    var t := Marked(i, x, false);
    ItemsForms(i, x, rest);
    MarkedLen(i, x, false);
    HungNext(st, r1, r, n, ItemsLen(rest), KeyCountItems(rest));
    GrownTwice(st, r1, r, n, ItemsLen(rest), KeyCount(x), KeyCountItems(rest), Parent(st), |st.nodes|, Parent(st));
    BuiltFrame(r1.nodes, r.nodes, i, t, Parent(st));
    var more := MarkedItems(i + n, rest);
    assert ([t] + more)[1..] == more;
  }

  lemma ItemsForms(i: nat, x: Tree, rest: seq<Tree>)
    ensures MarkedItems(i, [x] + rest) == [Marked(i, x, false)] + MarkedItems(i + Len(x), rest)
    ensures ItemsLen([x] + rest) == Len(x) + ItemsLen(rest) && KeyCountItems([x] + rest) == KeyCount(x) + KeyCountItems(rest)
    ensures rest == [] <==> ItemsLen(rest) == 0
  {
    hide Marked;
    hide KeyCount;
    hide Len;
    assert ([x] + rest)[1..] == rest;
    if rest != [] {
      LenPositive(rest[0]);
    }
  }

  lemma LenPositive(t: Tree)
    ensures Len(t) >= 1
  {
    hide Len;
  }

  lemma NothingGrown(st: St)
    requires StOk(st) && |st.scopes| >= 3 && Parent(st) >= 0
    ensures ChildrenGrown(st, st, 0, 0)
  {
    hide StOk;
    KeysSame(st.keys, Parent(st), |st.nodes|);
  }

  lemma NoItems(lim: Limits, st: St, parent: nat)
    requires StOk(st)
    ensures AddItems(lim, st, []) == st && ItemsLen([]) == 0 && KeyCountItems([]) == 0
    ensures BuiltItems(st.nodes, |st.nodes|, MarkedItems(|st.nodes|, []), parent)
  {
    hide StOk;
  }

  lemma ItemsNext(lim: Limits, st: St, items: seq<Tree>)
    requires StOk(st) && items != []
    ensures AddItems(lim, st, items) == AddItems(lim, AddTree(lim, st, items[0]), items[1..])
    ensures items == [items[0]] + items[1..]
  {
    hide StOk;
    hide AddTree;
  }

  /** The container whose children are being added is an array, or an object at a key. */
  ghost predicate InArray(st: St)
    requires StOk(st)
  {
    ScopeFacts(st);
    |st.scopes| >= 3 && st.nodes[Parent(st)].tok.kind != TBraceOpen
  }

  lemma ArrayNext(st: St)
    requires StOk(st) && InArray(st)
    ensures ValueNext(st) && !SkipNext(st) && |st.scopes| >= 3 && 0 <= Parent(st) < |st.nodes|
  {
    hide StOk;
    ScopeFacts(st);
  }

  lemma StillInArray(st: St, r1: St, x: Tree)
    requires StOk(st) && InArray(st) && OneBuilt(st, r1, x)
    ensures StOk(r1) && InArray(r1) && Parent(r1) == Parent(st) && |r1.scopes| >= 3
  {
    hide StOk;
    hide KeysFrom;
    hide Built;
    hide SkipNext;
    ScopeFacts(st);
    ScopeFacts(r1);
    assert Bare(r1.nodes[Parent(st)]) == Bare(Hung(st)[Parent(st)]);
  }

  lemma ReadyLess(lim: Limits, st: St, a: nat, b: nat)
    requires Ready(lim, st, a) && b <= a
    ensures Ready(lim, st, b) && StOk(st)
  {
    hide StOk;
    hide KeysFrom;
  }

  lemma OneGrown(st: St, r: St, t: Tree)
    requires StOk(st) && OneBuilt(st, r, t)
    ensures StOk(r) && Grown(st, r, Len(t), KeyCount(t), |st.nodes|)
  {
    hide StOk;
    hide KeysFrom;
    hide Built;
    hide SkipNext;
  }

  lemma {:induction false} ItemsBuilt(lim: Limits, st: St, items: seq<Tree>)
    requires Ready(lim, st, KeyCountItems(items)) && StOk(st) && InArray(st)
    requires forall i :: 0 <= i < |items| ==> Doc(items[i])
    ensures |st.scopes| >= 3 && Parent(st) >= 0
    ensures ChildrenGrown(st, AddItems(lim, st, items), ItemsLen(items), KeyCountItems(items))
    ensures BuiltItems(AddItems(lim, st, items).nodes, |st.nodes|, MarkedItems(|st.nodes|, items), Parent(st))
    decreases items, 0
  {
    hide *;
    ArrayNext(st);
    if items == [] {
      NoItems(lim, st, Parent(st));
      NothingGrown(st);
    } else {
      var x, rest := items[0], items[1..];
      ItemsNext(lim, st, items);
      ItemsForms(|st.nodes|, x, rest);
      ReadyLess(lim, st, KeyCountItems(items), KeyCount(x));
      TreeBuilt(lim, st, x);
      var r1 := AddTree(lim, st, x);
      OneGrown(st, r1, x);
      StillInArray(st, r1, x);
      KeysBelowGrown(st, r1, Len(x), KeyCount(x), |st.nodes|, lim, KeyCountItems(rest));
      ItemsBuilt(lim, r1, rest);
      JoinItem(st, r1, AddItems(lim, r1, rest), x, rest);
    }
  }

  // ---------------------------------------------------------------- members

  /** The key node of the member at `i`. */
  lemma KeyPushed(lim: Limits, st: St, key: Token, seen: set<bytes>, more: nat)
    requires Ready(lim, st, 1 + more) && StOk(st) && KeyNext(st) && SeenIs(st.keys, Parent(st), seen)
    ensures |st.scopes| >= 3 && 0 <= Parent(st) < |st.nodes|
    ensures var a := Push(lim, st, NewNode(AstLeaf, key));
            var dup := IsDuplicate(Parent(st), KeyText(key), seen);
            && StOk(a) && Ready(lim, a, more) && Grown(st, a, 1, 1, Parent(st)) && a.scopes == Advanced(st)
            && SameSpan(a.nodes, Hung(st), 0, |st.nodes|)
            && a.nodes[|st.nodes|] == NewNode(AstLeaf, key).(parent := Parent(st), kind := if dup then AstSkipped else AstLeaf)
            && SeenIs(a.keys, Parent(st), seen + {KeyText(key)})
  {
    hide StOk;
    hide Push;
    hide Hung;
    hide Advanced;
    hide Scoped;
    hide KeyText;
    hide ScopedIn;
    ScopeFacts(st);
    PushKey(lim, st, NewNode(AstLeaf, key));
    var a := Push(lim, st, NewNode(AstLeaf, key));
    var text, parent := KeyText(key), Parent(st);
    SeenAdd(st.keys, parent, seen, text);
    KeyAdded(st.keys, a.keys, parent, text, parent, |st.nodes| + 1);
    KeyBelow(st.keys, a.keys, parent, text, |st.nodes|);
  }

  lemma KeyAdded(a: set<bytes>, b: set<bytes>, parent: nat, text: bytes, lo: nat, hi: nat)
    requires b == a || b == a + {Scoped(parent, text)}
    requires lo <= parent < hi
    ensures |b| <= |a| + 1 && KeysFrom(a, b, lo, hi)
  {
    hide Scoped;
    assert ScopedIn(Scoped(parent, text), lo, hi);
  }

  lemma KeyBelow(a: set<bytes>, b: set<bytes>, parent: nat, text: bytes, n: nat)
    requires KeysFrom({}, a, 0, n) && parent < n && (b == a || b == a + {Scoped(parent, text)})
    ensures KeysFrom({}, b, 0, n + 1)
  {
    hide Scoped;
    forall k | k in b ensures ScopedIn(k, 0, n + 1) {
      if k in a {
        ScopedWiden(k, 0, n, 0, n + 1);
      }
    }
  }

  /** A key is pending: the member's value comes next. */
  lemma KeyPending(st: St, a: St, key: Token, dup: bool)
    requires StOk(st) && StOk(a) && KeyNext(st) && |a.nodes| == |st.nodes| + 1 && a.scopes == Advanced(st)
    requires SameSpan(a.nodes, Hung(st), 0, |st.nodes|)
    requires |st.scopes| >= 3 && a.nodes[|st.nodes|] == NewNode(AstLeaf, key).(parent := Parent(st), kind := if dup then AstSkipped else AstLeaf)
    ensures ValueNext(a) && SkipNext(a) == dup && |a.scopes| >= 3 && Parent(a) == Parent(st) && Tail(a) == |st.nodes|
    ensures Count(a) == Count(st) + 1 && 0 <= Parent(a) < |st.nodes|
  {
    hide StOk;
    ScopeFacts(st);
    ScopeFacts(a);
    assert Bare(a.nodes[Parent(st)]) == Bare(Hung(st)[Parent(st)]);
  }

  lemma KeyAgain(st: St, a: St, b: St, v: Tree)
    requires StOk(st) && StOk(a) && KeyNext(st) && |a.nodes| == |st.nodes| + 1 && a.scopes == Advanced(st)
    requires SameSpan(a.nodes, Hung(st), 0, |st.nodes|) && OneBuilt(a, b, v)
    ensures StOk(b) && KeyNext(b) && |b.scopes| >= 3 && Parent(b) == Parent(st) && Tail(b) == |a.nodes|
  {
    hide StOk;
    hide KeysFrom;
    hide Built;
    hide SkipNext;
    ScopeFacts(st);
    ScopeFacts(a);
    ScopeFacts(b);
    var p := Parent(st);
    assert Bare(a.nodes[p]) == Bare(Hung(st)[p]);
    assert Bare(b.nodes[p]) == Bare(Hung(a)[p]);
  }

  lemma MembersForms(parent: nat, i: nat, m: Member, rest: seq<Member>, seen: set<bytes>)
    ensures var dup := IsDuplicate(parent, KeyText(m.key), seen);
            MarkedMembers(parent, i, [m] + rest, seen)
            == [Member(m.key, dup, Marked(i + 1, m.val, dup))]
               + MarkedMembers(parent, i + 1 + Len(m.val), rest, seen + {KeyText(m.key)})
    ensures MembersLen([m] + rest) == 1 + Len(m.val) + MembersLen(rest)
    ensures KeyCountMembers([m] + rest) == 1 + KeyCount(m.val) + KeyCountMembers(rest)
    ensures rest == [] <==> MembersLen(rest) == 0
  {
    hide Marked;
    hide KeyText;
    hide IsDuplicate;
    hide KeyCount;
    hide Len;
    assert ([m] + rest)[1..] == rest && ([m] + rest)[0] == m;
  }

  lemma NoMembersAdded(lim: Limits, st: St, parent: nat, seen: set<bytes>)
    requires StOk(st)
    ensures AddMembers(lim, st, []) == st && MembersLen([]) == 0 && KeyCountMembers([]) == 0
    ensures BuiltMembers(st.nodes, |st.nodes|, MarkedMembers(parent, |st.nodes|, [], seen), parent)
  {
    hide StOk;
  }

  lemma MembersNext(lim: Limits, st: St, ms: seq<Member>)
    requires StOk(st) && ms != []
    ensures AddMembers(lim, st, ms)
         == AddMembers(lim, AddTree(lim, Push(lim, st, NewNode(AstLeaf, ms[0].key)), ms[0].val), ms[1..])
    ensures ms == [ms[0]] + ms[1..]
  {
    hide StOk;
    hide AddTree;
    hide Push;
    assert ms[0].val < ms[0];
  }

  /** One member and the members after it. */
  lemma JoinMember(st: St, a: St, b: St, r: St, m: Member, dup: bool, rest: seq<Member>, marks: seq<Member>)
    requires StOk(st) && StOk(a) && StOk(b) && |st.scopes| >= 3 && 0 <= Parent(st) < |st.nodes|
    requires Grown(st, a, 1, 1, Parent(st)) && a.scopes == Advanced(st) && SameSpan(a.nodes, Hung(st), 0, |st.nodes|)
    requires a.nodes[|st.nodes|] == NewNode(AstLeaf, m.key).(parent := Parent(st), kind := if dup then AstSkipped else AstLeaf)
    requires |a.scopes| >= 3 && Parent(a) == Parent(st) && Tail(a) == |st.nodes| && SkipNext(a) == dup
    requires OneBuilt(a, b, m.val) && |b.scopes| >= 3 && Parent(b) == Parent(st)
    requires ChildrenGrown(b, r, MembersLen(rest), KeyCountMembers(rest)) && |marks| == |rest|
    requires rest == [] <==> MembersLen(rest) == 0
    requires BuiltMembers(r.nodes, |b.nodes|, marks, Parent(st))
    ensures ChildrenGrown(st, r, 1 + Len(m.val) + MembersLen(rest), 1 + KeyCount(m.val) + KeyCountMembers(rest))
    ensures BuiltMembers(r.nodes, |st.nodes|, [Member(m.key, dup, Marked(|st.nodes| + 1, m.val, dup))] + marks, Parent(st))
  {
    hide StOk;
    hide KeysFrom;
    hide Built;
    hide BuiltMembers;
    hide Marked;
    hide SkipNext;
    var i, n := |st.nodes|, Len(m.val);
    var t := Marked(i + 1, m.val, dup);
    MarkedLen(i + 1, m.val, dup);
    HungNext(a, b, r, n, MembersLen(rest), KeyCountMembers(rest));
    BuiltFrame(b.nodes, r.nodes, i + 1, t, Parent(st));
    GrownTwice(a, b, r, n, MembersLen(rest), KeyCount(m.val), KeyCountMembers(rest), Parent(st), i + 1, Parent(st));
    GrownTwice(st, a, r, 1, n + MembersLen(rest), 1, KeyCount(m.val) + KeyCountMembers(rest), Parent(st), Parent(st), Parent(st));
    MemberFrame(st, a, r);
    MemberCons(r.nodes, i, Member(m.key, dup, t), marks, Parent(st));
  }

  lemma MemberCons(pool: seq<Node>, i: nat, m: Member, rest: seq<Member>, parent: nat)
    requires i < |pool| && Bare(pool[i]) == Bare(NewNode(AstLeaf, m.key).(parent := parent, kind := if m.keySkip then AstSkipped else AstLeaf, nextSibling := i + 1))
    requires Built(pool, i + 1, m.val, parent) && i + 1 < |pool|
    requires pool[i + 1].nextSibling == if rest == [] then -1 else i + 1 + Len(m.val)
    requires BuiltMembers(pool, i + 1 + Len(m.val), rest, parent)
    ensures BuiltMembers(pool, i, [m] + rest, parent)
  {
    hide Built;
    assert ([m] + rest)[1..] == rest && ([m] + rest)[0] == m;
  }

  lemma MemberFrame(st: St, a: St, r: St)
    requires StOk(st) && StOk(a) && |st.scopes| >= 3 && |a.nodes| == |st.nodes| + 1 && a.scopes == Advanced(st)
    requires SameSpan(a.nodes, Hung(st), 0, |st.nodes|) && |a.scopes| >= 3 && Tail(a) == |st.nodes| && Parent(a) == Parent(st) < |st.nodes|
    requires SameSpan(r.nodes, Hung(a), 0, |a.nodes|) && |r.scopes| == |a.scopes| && r.scopes[..|r.scopes| - 3] == a.scopes[..|a.scopes| - 3]
    ensures SameSpan(r.nodes, Hung(st), 0, |st.nodes|)
    ensures Bare(r.nodes[|st.nodes|]) == Bare(a.nodes[|st.nodes|].(nextSibling := |st.nodes| + 1))
    ensures |r.scopes| == |st.scopes| && r.scopes[..|r.scopes| - 3] == st.scopes[..|st.scopes| - 3]
  {
    hide StOk;
    ScopeFacts(a);
    var i := |st.nodes|;
    assert Bare(r.nodes[i]) == Bare(Hung(a)[i]);
    assert a.scopes[..|a.scopes| - 3] == st.scopes[..|st.scopes| - 3];
    forall q | 0 <= q < i ensures Bare(r.nodes[q]) == Bare(Hung(st)[q]) {
      assert Bare(r.nodes[q]) == Bare(Hung(a)[q]);
      assert Bare(a.nodes[q]) == Bare(Hung(st)[q]);
    }
  }

  lemma {:induction false} MembersBuilt(lim: Limits, st: St, ms: seq<Member>, seen: set<bytes>)
    requires Ready(lim, st, KeyCountMembers(ms)) && StOk(st) && KeyNext(st)
    requires |st.scopes| >= 3 && Parent(st) >= 0 && SeenIs(st.keys, Parent(st), seen)
    requires forall i :: 0 <= i < |ms| ==> DocMember(ms[i])
    ensures ChildrenGrown(st, AddMembers(lim, st, ms), MembersLen(ms), KeyCountMembers(ms))
    ensures BuiltMembers(AddMembers(lim, st, ms).nodes, |st.nodes|, MarkedMembers(Parent(st), |st.nodes|, ms, seen), Parent(st))
    decreases ms, 0
  {
    hide *;
    if ms == [] {
      NoMembersAdded(lim, st, Parent(st), seen);
      NothingGrown(st);
    } else {
      var m, rest := ms[0], ms[1..];
      assert m.val < m;
      var text := KeyText(m.key);
      var dup := IsDuplicate(Parent(st), text, seen);
      MembersNext(lim, st, ms);
      MembersForms(Parent(st), |st.nodes|, m, rest, seen);
      KeyPushed(lim, st, m.key, seen, KeyCount(m.val) + KeyCountMembers(rest));
      var a := Push(lim, st, NewNode(AstLeaf, m.key));
      KeyPending(st, a, m.key, dup);
      ReadyLess(lim, a, KeyCount(m.val) + KeyCountMembers(rest), KeyCount(m.val));
      MemberDoc(m);
      TreeBuilt(lim, a, m.val);
      var b := AddTree(lim, a, m.val);
      OneGrown(a, b, m.val);
      KeyAgain(st, a, b, m.val);
      GrownMeans(a, b, m.val);
      SeenKept(a.keys, b.keys, Parent(st), seen + {text}, |a.nodes|, |b.nodes|);
      KeysBelowGrown(a, b, Len(m.val), KeyCount(m.val), |a.nodes|, lim, KeyCountMembers(rest));
      MembersBuilt(lim, b, rest, seen + {text});
      JoinMember(st, a, b, AddMembers(lim, b, rest), m, dup, rest, MarkedMembers(Parent(st), |b.nodes|, rest, seen + {text}));
    }
  }

  lemma GrownMeans(a: St, b: St, t: Tree)
    requires StOk(a) && Grown(a, b, Len(t), KeyCount(t), |a.nodes|)
    ensures KeysFrom(a.keys, b.keys, |a.nodes|, |b.nodes|) && |b.nodes| == |a.nodes| + Len(t)
  {
    hide StOk;
    hide KeysFrom;
  }

  lemma MemberDoc(m: Member)
    requires DocMember(m)
    ensures Doc(m.val)
  {
    hide Doc;
  }

  // ---------------------------------------------------------------- containers

  lemma ArrayBuilt(lim: Limits, st: St, t: Tree)
    requires Ready(lim, st, KeyCount(t)) && StOk(st) && ValueNext(st) && t.Arr? && Doc(t)
    ensures OneBuilt(st, AddTree(lim, st, t), t)
    decreases t, 1
  {
    hide *;
    var o := OpenScope(Push(lim, st, NewNode(AstArray, BracketToken)));
    var r := AddItems(lim, o, t.items);
    ArrayForms(lim, st, t);
    OpenedFacts(lim, st, AstArray, BracketToken, KeyCount(t));
    ReadyLess(lim, o, KeyCount(t), KeyCount(t));
    OpenedArray(o, |st.nodes|, ParentIdx(st), SkipNext(st));
    ItemsBuilt(lim, o, t.items);
    CloseBuilt(st, o, r, t, AstArray, BracketToken);
  }

  lemma ArrayForms(lim: Limits, st: St, t: Tree)
    requires StOk(st) && t.Arr? && Doc(t)
    ensures AddTree(lim, st, t) == CloseScope(AddItems(lim, OpenScope(Push(lim, st, NewNode(AstArray, BracketToken))), t.items))
    ensures KeyCount(t) == KeyCountItems(t.items) && Len(t) == 1 + ItemsLen(t.items)
    ensures forall i :: 0 <= i < |t.items| ==> Doc(t.items[i])
  {
    hide StOk;
    hide Push;
    hide AddItems;
    hide OpenScope;
    hide CloseScope;
  }

  lemma OpenedArray(o: St, i: nat, parent: int, skip: bool)
    requires StOk(o) && |o.scopes| >= 3 && Parent(o) == i && |o.nodes| == i + 1
    requires o.nodes[i] == NewNode(AstArray, BracketToken).(parent := parent, kind := if skip then AstSkipped else AstArray)
    ensures InArray(o)
  {
    hide StOk;
    ScopeFacts(o);
  }

  lemma OpenedObject(o: St, i: nat, parent: int, skip: bool)
    requires StOk(o) && |o.scopes| >= 3 && Parent(o) == i && |o.nodes| == i + 1 && Count(o) == 0
    requires o.nodes[i] == NewNode(AstObject, BraceToken).(parent := parent, kind := if skip then AstSkipped else AstObject)
    ensures KeyNext(o)
  {
    hide StOk;
    ScopeFacts(o);
  }

  lemma ObjectForms(lim: Limits, st: St, t: Tree)
    requires StOk(st) && t.Obj? && Doc(t)
    ensures AddTree(lim, st, t) == CloseScope(AddMembers(lim, OpenScope(Push(lim, st, NewNode(AstObject, BraceToken))), t.members))
    ensures KeyCount(t) == KeyCountMembers(t.members) && Len(t) == 1 + MembersLen(t.members)
    ensures forall i :: 0 <= i < |t.members| ==> DocMember(t.members[i])
  {
    hide StOk;
    hide Push;
    hide AddMembers;
    hide OpenScope;
    hide CloseScope;
  }

  lemma ObjectBuilt(lim: Limits, st: St, t: Tree)
    requires Ready(lim, st, KeyCount(t)) && StOk(st) && ValueNext(st) && t.Obj? && Doc(t)
    ensures OneBuilt(st, AddTree(lim, st, t), t)
    decreases t, 1
  {
    hide *;
    var o := OpenScope(Push(lim, st, NewNode(AstObject, BraceToken)));
    var r := AddMembers(lim, o, t.members);
    ObjectForms(lim, st, t);
    OpenedFacts(lim, st, AstObject, BraceToken, KeyCount(t));
    ReadyLess(lim, o, KeyCount(t), KeyCount(t));
    OpenedObject(o, |st.nodes|, ParentIdx(st), SkipNext(st));
    ReadyKeys(lim, st, KeyCount(t));
    SeenStart(o.keys, |st.nodes|, |st.nodes|);
    MembersBuilt(lim, o, t.members, {});
    CloseBuilt(st, o, r, t, AstObject, BraceToken);
  }

  lemma ReadyKeys(lim: Limits, st: St, n: nat)
    requires Ready(lim, st, n)
    ensures KeysFrom({}, st.keys, 0, |st.nodes|)
  {
    hide StOk;
    hide KeysFrom;
  }

  /** Closing the container leaves it built, with its children behind it. */
  lemma CloseBuilt(st: St, o: St, r: St, t: Tree, kind: NodeKind, tok: Token)
    requires StOk(st) && StOk(o) && |o.scopes| >= 3 && |o.nodes| == |st.nodes| + 1
    requires Parent(o) == |st.nodes| && Tail(o) == -1 && Count(o) == 0
    requires o.scopes[..|o.scopes| - 3] == Advanced(st) && o.keys == st.keys
    requires SameSpan(o.nodes, Hung(st), 0, |st.nodes|)
    requires o.nodes[|st.nodes|] == NewNode(kind, tok).(parent := ParentIdx(st), kind := if SkipNext(st) then AstSkipped else kind)
    requires ChildrenGrown(o, r, Len(t) - 1, KeyCount(t)) && StOk(r) && |r.scopes| >= 3
    requires t.Arr? || t.Obj?
    requires t.Arr? ==> kind == AstArray && tok == BracketToken && BuiltItems(r.nodes, |o.nodes|, MarkedItems(|o.nodes|, t.items), |st.nodes|)
    requires t.Obj? ==> kind == AstObject && tok == BraceToken
                        && BuiltMembers(r.nodes, |o.nodes|, MarkedMembers(|st.nodes|, |o.nodes|, t.members, {}), |st.nodes|)
    ensures OneBuilt(st, CloseScope(r), t)
  {
    hide StOk;
    hide KeysFrom;
    hide BuiltItems;
    hide BuiltMembers;
    hide MarkedItems;
    hide MarkedMembers;
    hide SkipNext;
    hide Advanced;
    ContainerLen(t);
    RootFrame(st, o, r, Len(t) - 1);
  }

  lemma ContainerLen(t: Tree)
    ensures t.Arr? ==> (t.items == [] <==> Len(t) - 1 == 0)
    ensures t.Obj? ==> (t.members == [] <==> Len(t) - 1 == 0)
  {
  }

  lemma RootFrame(st: St, o: St, r: St, n: nat)
    requires StOk(st) && StOk(o) && |o.scopes| >= 3 && |o.nodes| == |st.nodes| + 1
    requires Parent(o) == |st.nodes| && Tail(o) == -1
    requires SameSpan(o.nodes, Hung(st), 0, |st.nodes|)
    requires SameSpan(r.nodes, if n == 0 then o.nodes else Hung(o), 0, |o.nodes|)
    ensures SameSpan(r.nodes, Hung(st), 0, |st.nodes|)
    ensures Bare(r.nodes[|st.nodes|])
         == Bare(if n == 0 then o.nodes[|st.nodes|] else o.nodes[|st.nodes|].(firstChild := |st.nodes| + 1))
  {
    hide StOk;
    ScopeFacts(o);
    var i := |st.nodes|;
    var h := if n == 0 then o.nodes else Hung(o);
    assert Bare(r.nodes[i]) == Bare(h[i]);
    forall q | 0 <= q < i ensures Bare(r.nodes[q]) == Bare(Hung(st)[q]) {
      assert Bare(r.nodes[q]) == Bare(h[q]);
      assert Bare(o.nodes[q]) == Bare(Hung(st)[q]);
    }
  }

  /** Building a value, whatever the state, appends its marked preorder flattening. */
  lemma {:induction false} TreeBuilt(lim: Limits, st: St, t: Tree)
    requires Ready(lim, st, KeyCount(t)) && StOk(st) && ValueNext(st) && Doc(t)
    ensures OneBuilt(st, AddTree(lim, st, t), t)
    decreases t, 2
  {
    hide *;
    match t {
      case Leaf(_, _) =>
        ReadyLess(lim, st, KeyCount(t), 0);
        LeafBuilt(lim, st, t);
      case Arr(_, _) => ArrayBuilt(lim, st, t);
      case Obj(_, _) => ObjectBuilt(lim, st, t);
    }
  }

  /** An empty state is ready for any value the key set has room for. */
  lemma FromNothing(lim: Limits, t: Tree)
    requires Doc(t) && KeyCount(t) <= lim.keys
    ensures var st := St([], [], {}, []);
            && StOk(st)
            && |AddTree(lim, st, t).nodes| == Len(t)
            && Built(AddTree(lim, st, t).nodes, 0, Marked(0, t, false), -1)
            && AddTree(lim, st, t).nodes[0].nextSibling == -1
  {
    hide AddTree;
    hide Built;
    hide Marked;
    hide KeyCount;
    hide Doc;
    var st := St([], [], {}, []);
    KeysSame({}, 0, 0);
    TreeBuilt(lim, st, t);
  }
}
