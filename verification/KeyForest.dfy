/** The trees of all objects share one pool (src/parser/keytree.c): they stay apart, and
    each lists its object's stored keys in byte order whatever the source order, keys with the
    same text in the order of the source. */
module KeyForest {
  import opened Bytes
  import opened Ast
  import opened Keywords
  import opened Grammar
  import opened KeyTree
  import opened KeySet
  import opened ScopedKeys
  import opened Building
  import opened PoolShape
  import opened PoolBuilt

  // ---------------------------------------------------------------- one tree

  /** The pool entries below a root. */
  function Reach(tree: seq<KeyNode>, r: int): set<nat>
    decreases if 0 <= r < |tree| then |tree| - r else 0
  {
    if 0 <= r < |tree| then {r} + Reach(tree, Kid(tree, r, true)) + Reach(tree, Kid(tree, r, false)) else {}
  }

  /** No entry is below a root twice. */
  ghost predicate Apart(tree: seq<KeyNode>, r: int)
    decreases if 0 <= r < |tree| then |tree| - r else 0
  {
    0 <= r < |tree| ==>
      && Reach(tree, Kid(tree, r, true)) !! Reach(tree, Kid(tree, r, false))
      && Apart(tree, Kid(tree, r, true)) && Apart(tree, Kid(tree, r, false))
  }

  /** A smaller text, or the same text earlier in the source. */
  ghost predicate Precedes(pool: seq<Node>, a: nat, b: nat) {
    Less(TextAt(pool, a), TextAt(pool, b)) || (TextAt(pool, a) == TextAt(pool, b) && a < b)
  }

  lemma PrecedesTransitive(pool: seq<Node>, a: nat, b: nat, c: nat)
    requires Precedes(pool, a, b) && Precedes(pool, b, c)
    ensures Precedes(pool, a, c)
  {
    hide TextAt;
    hide Less;
    var x, y, z := TextAt(pool, a), TextAt(pool, b), TextAt(pool, c);
    if Less(x, y) && Less(y, z) {
      LessTransitive(x, y, z);
    }
  }

  lemma PrecedesIrreflexive(pool: seq<Node>, a: nat)
    ensures !Precedes(pool, a, a)
  {
    hide TextAt;
    LessIrreflexive(TextAt(pool, a));
  }

  /** Each key precedes the later ones. */
  ghost predicate Strict(pool: seq<Node>, list: seq<nat>) {
    forall a, b :: 0 <= a < b < |list| ==> Precedes(pool, list[a], list[b])
  }

  lemma {:induction false} ReachAbove(tree: seq<KeyNode>, r: int)
    ensures forall k :: k in Reach(tree, r) ==> r <= k < |tree|
    decreases if 0 <= r < |tree| then |tree| - r else 0
  {
    if 0 <= r < |tree| {
      ReachAbove(tree, Kid(tree, r, true));
      ReachAbove(tree, Kid(tree, r, false));
    }
  }

  lemma ReachForms(tree: seq<KeyNode>, r: nat)
    requires r < |tree|
    ensures Reach(tree, r) == {r} + Reach(tree, Kid(tree, r, true)) + Reach(tree, Kid(tree, r, false))
    ensures InOrder(tree, r) == InOrder(tree, Kid(tree, r, true)) + [tree[r].key] + InOrder(tree, Kid(tree, r, false))
    ensures Apart(tree, r) <==>
            && Reach(tree, Kid(tree, r, true)) !! Reach(tree, Kid(tree, r, false))
            && Apart(tree, Kid(tree, r, true)) && Apart(tree, Kid(tree, r, false))
  {
    hide Kid;
  }

  lemma NoReach(tree: seq<KeyNode>)
    ensures Reach(tree, -1) == {} && InOrder(tree, -1) == [] && Apart(tree, -1)
  {
  }

  /** What happens outside a tree does not touch it. */
  lemma {:induction false} Untouched(a: seq<KeyNode>, b: seq<KeyNode>, r: int)
    requires Forward(a) && |a| <= |b| && -1 <= r < |a| && forall k :: k in Reach(a, r) && k < |a| ==> b[k] == a[k]
    ensures Reach(b, r) == Reach(a, r) && InOrder(b, r) == InOrder(a, r) && (Apart(a, r) <==> Apart(b, r))
    decreases if 0 <= r < |a| then |a| - r else 0
  {
    hide Reach;
    hide InOrder;
    hide Apart;
    NoReach(a);
    NoReach(b);
    ReachAbove(a, r);
    if r >= 0 {
      ReachForms(a, r);
      ReachForms(b, r);
      Untouched(a, b, Kid(a, r, true));
      Untouched(a, b, Kid(a, r, false));
    }
  }

  /** The keys listed are those of the entries below the root. */
  lemma {:induction false} Listed(tree: seq<KeyNode>, r: int, j: nat)
    ensures j in InOrder(tree, r) <==> exists k :: k in Reach(tree, r) && k < |tree| && tree[k].key == j
    decreases if 0 <= r < |tree| then |tree| - r else 0
  {
    if 0 <= r < |tree| {
      Listed(tree, Kid(tree, r, true), j);
      Listed(tree, Kid(tree, r, false), j);
      ReachForms(tree, r);
    }
  }

  // ---------------------------------------------------------------- order

  /** A list is strict when both sides of an element are, and lie on their sides. */
  lemma StrictJoin(pool: seq<Node>, a: seq<nat>, x: nat, b: seq<nat>)
    ensures Strict(pool, a + [x] + b) <==>
            && Strict(pool, a) && Strict(pool, b)
            && (forall j :: j in a ==> Precedes(pool, j, x)) && (forall j :: j in b ==> Precedes(pool, x, j))
  {
    hide Precedes;
    var l := a + [x] + b;
    if Strict(pool, l) {
      StrictParts(pool, a, x, b);
    }
    if Strict(pool, a) && Strict(pool, b)
       && (forall j :: j in a ==> Precedes(pool, j, x)) && (forall j :: j in b ==> Precedes(pool, x, j)) {
      forall i, k | 0 <= i < k < |l| ensures Precedes(pool, l[i], l[k]) {
        StrictPair(pool, a, x, b, i, k);
      }
    }
  }

  lemma StrictParts(pool: seq<Node>, a: seq<nat>, x: nat, b: seq<nat>)
    requires Strict(pool, a + [x] + b)
    ensures Strict(pool, a) && Strict(pool, b)
    ensures (forall j :: j in a ==> Precedes(pool, j, x)) && (forall j :: j in b ==> Precedes(pool, x, j))
  {
    hide Precedes;
    var l := a + [x] + b;
    var n := |a|;
    forall i, k | 0 <= i < k < |a| ensures Precedes(pool, a[i], a[k]) {
      assert l[i] == a[i] && l[k] == a[k];
    }
    forall i, k | 0 <= i < k < |b| ensures Precedes(pool, b[i], b[k]) {
      var p, q := n + 1 + i, n + 1 + k;
      assert l[p] == b[i] && l[q] == b[k];
    }
    forall i | 0 <= i < |a| ensures Precedes(pool, a[i], x) {
      assert l[i] == a[i] && l[n] == x;
    }
    forall i | 0 <= i < |b| ensures Precedes(pool, x, b[i]) {
      var p := n + 1 + i;
      assert l[n] == x && l[p] == b[i];
    }
  }

  lemma StrictPair(pool: seq<Node>, a: seq<nat>, x: nat, b: seq<nat>, i: nat, k: nat)
    requires Strict(pool, a) && Strict(pool, b) && i < k < |a| + 1 + |b|
    requires (forall j :: j in a ==> Precedes(pool, j, x)) && (forall j :: j in b ==> Precedes(pool, x, j))
    ensures Precedes(pool, (a + [x] + b)[i], (a + [x] + b)[k])
  {
    hide Precedes;
    var l := a + [x] + b;
    var n := |a|;
    if i < n && k > n {
      assert l[i] == a[i] && l[k] == b[k - n - 1];
      PrecedesTransitive(pool, a[i], x, b[k - n - 1]);
    } else if i < n && k == n {
      assert l[i] == a[i] && l[k] == x;
    } else if i < n {
      assert l[i] == a[i] && l[k] == a[k];
    } else if i == n {
      assert l[i] == x && l[k] == b[k - n - 1];
    } else {
      assert l[i] == b[i - n - 1] && l[k] == b[k - n - 1];
    }
  }

  // ---------------------------------------------------------------- one insertion

  /** The pool after the key has been put below `curr`. */
  function Put(tree: seq<KeyNode>, pool: seq<Node>, key: nat, curr: nat): (r: seq<KeyNode>)
    requires curr < |tree|
    ensures |r| == |tree| + 1
  {
    var s := Slot(tree, pool, TextAt(pool, key), curr);
    Attach(tree + [KeyNode(key, -1, -1)], s.0, s.1, |tree|)
  }

  /** A key that comes after those of the list in the source; none of them has a NUL. */
  ghost predicate Novel(pool: seq<Node>, key: nat, list: seq<nat>) {
    && 0 !in TextAt(pool, key)
    && forall j :: j in list ==> 0 !in TextAt(pool, j) && j < key
  }

  ghost predicate Inserted(tree: seq<KeyNode>, pool: seq<Node>, key: nat, t2: seq<KeyNode>, curr: nat) {
    && Reach(t2, curr) == Reach(tree, curr) + {|tree|} && Apart(t2, curr)
    && (forall j: nat :: j in InOrder(t2, curr) <==> j == key || j in InOrder(tree, curr))
    && (Strict(pool, InOrder(tree, curr)) && Novel(pool, key, InOrder(tree, curr)) ==> Strict(pool, InOrder(t2, curr)))
  }

  lemma SlotNext(tree: seq<KeyNode>, pool: seq<Node>, key: nat, curr: nat, left: bool)
    requires curr < |tree| && Forward(tree) && left == (Compare(TextAt(pool, key), TextAt(pool, tree[curr].key)) < 0)
    ensures Kid(tree, curr, left) >= 0 ==> Put(tree, pool, key, curr) == Put(tree, pool, key, Kid(tree, curr, left))
                                           && Slot(tree, pool, TextAt(pool, key), curr).0 >= Kid(tree, curr, left)
    ensures Kid(tree, curr, left) == -1 ==> Put(tree, pool, key, curr) == Attach(tree + [KeyNode(key, -1, -1)], curr, left, |tree|)
  {
    hide Compare;
    hide TextAt;
  }

  /** The side of the node that the key goes to. */
  lemma Side(pool: seq<Node>, key: nat, x: nat, left: bool)
    requires left == (Compare(TextAt(pool, key), TextAt(pool, x)) < 0)
    requires 0 !in TextAt(pool, key) && 0 !in TextAt(pool, x) && x < key
    ensures if left then Precedes(pool, key, x) else Precedes(pool, x, key)
  {
    hide Compare;
    hide TextAt;
    CompareIsOrder(TextAt(pool, key), TextAt(pool, x));
  }

  /** Putting the key into one subtree keeps the list strict. */
  lemma StrictPut(pool: seq<Node>, key: nat, x: nat, left: bool, a: seq<nat>, b: seq<nat>, c: seq<nat>)
    requires left == (Compare(TextAt(pool, key), TextAt(pool, x)) < 0)
    requires forall j: nat :: j in c <==> j == key || j in (if left then a else b)
    requires var old' := if left then a else b; Strict(pool, old') && Novel(pool, key, old') ==> Strict(pool, c)
    requires Strict(pool, a + [x] + b) && Novel(pool, key, a + [x] + b)
    ensures Strict(pool, if left then c + [x] + b else a + [x] + c)
  {
    hide Strict;
    hide Precedes;
    hide TextAt;
    hide Compare;
    StrictJoin(pool, a, x, b);
    assert x in a + [x] + b;
    Side(pool, key, x, left);
    assert forall j :: j in a || j in b ==> j in a + [x] + b;
    if left {
      StrictJoin(pool, c, x, b);
    } else {
      StrictJoin(pool, a, x, c);
    }
  }

  lemma InsertHere(tree: seq<KeyNode>, pool: seq<Node>, key: nat, curr: nat, left: bool)
    requires Forward(tree) && curr < |tree| && Apart(tree, curr) && Kid(tree, curr, left) == -1
    requires left == (Compare(TextAt(pool, key), TextAt(pool, tree[curr].key)) < 0)
    ensures Inserted(tree, pool, key, Attach(tree + [KeyNode(key, -1, -1)], curr, left, |tree|), curr)
  {
    hide Reach;
    hide InOrder;
    hide Apart;
    hide Strict;
    hide Novel;
    hide TextAt;
    hide Compare;
    var n := |tree|;
    var t2 := Attach(tree + [KeyNode(key, -1, -1)], curr, left, n);
    var other := Kid(tree, curr, !left);
    NoReach(tree);
    NoReach(t2);
    ReachForms(tree, curr);
    ReachForms(t2, curr);
    ReachForms(t2, n);
    ReachAbove(tree, other);
    Untouched(tree, t2, other);
    var a, b := InOrder(tree, Kid(tree, curr, true)), InOrder(tree, Kid(tree, curr, false));
    if Strict(pool, InOrder(tree, curr)) && Novel(pool, key, InOrder(tree, curr)) {
      StrictOne(pool, key);
      assert InOrder(t2, n) == [key];
      StrictPut(pool, key, tree[curr].key, left, a, b, [key]);
    }
  }

  lemma StrictOne(pool: seq<Node>, key: nat)
    ensures Strict(pool, [key])
  {
  }

  lemma {:induction false} InsertBelow(tree: seq<KeyNode>, pool: seq<Node>, key: nat, curr: nat)
    requires Forward(tree) && curr < |tree| && Apart(tree, curr)
    ensures Slot(tree, pool, TextAt(pool, key), curr).0 in Reach(tree, curr)
    ensures Inserted(tree, pool, key, Put(tree, pool, key, curr), curr)
    decreases |tree| - curr
  {
    hide *;
    var left := Compare(TextAt(pool, key), TextAt(pool, tree[curr].key)) < 0;
    SlotNext(tree, pool, key, curr, left);
    SlotReached(tree, pool, key, curr, left);
    KidRange(tree, curr, left);
    ReachForms(tree, curr);
    var next := Kid(tree, curr, left);
    if next == -1 {
      InsertHere(tree, pool, key, curr, left);
    } else {
      assert Apart(tree, next) by { ReachForms(tree, curr); }
      InsertBelow(tree, pool, key, next);
      InsertDeeper(tree, pool, key, curr, left);
    }
  }

  lemma KidRange(tree: seq<KeyNode>, curr: nat, left: bool)
    requires curr < |tree|
    ensures Kid(tree, curr, left) == -1 || curr < Kid(tree, curr, left) < |tree|
  {
  }

  lemma SlotReached(tree: seq<KeyNode>, pool: seq<Node>, key: nat, curr: nat, left: bool)
    requires curr < |tree| && Forward(tree) && left == (Compare(TextAt(pool, key), TextAt(pool, tree[curr].key)) < 0)
    ensures Kid(tree, curr, left) >= 0
            ==> Slot(tree, pool, TextAt(pool, key), curr) == Slot(tree, pool, TextAt(pool, key), Kid(tree, curr, left))
    ensures Kid(tree, curr, left) == -1 ==> Slot(tree, pool, TextAt(pool, key), curr) == (curr, left)
  {
    hide Compare;
    hide TextAt;
  }

  lemma InsertDeeper(tree: seq<KeyNode>, pool: seq<Node>, key: nat, curr: nat, left: bool)
    requires Forward(tree) && curr < |tree| && Apart(tree, curr) && Kid(tree, curr, left) >= 0
    requires left == (Compare(TextAt(pool, key), TextAt(pool, tree[curr].key)) < 0)
    requires Slot(tree, pool, TextAt(pool, key), Kid(tree, curr, left)).0 in Reach(tree, Kid(tree, curr, left))
    requires Inserted(tree, pool, key, Put(tree, pool, key, curr), Kid(tree, curr, left))
    ensures Inserted(tree, pool, key, Put(tree, pool, key, curr), curr)
  {
    hide Reach;
    hide InOrder;
    hide Apart;
    hide Strict;
    hide Novel;
    hide TextAt;
    hide Compare;
    hide Slot;
    hide Forward;
    var n := |tree|;
    var next, other := Kid(tree, curr, left), Kid(tree, curr, !left);
    SlotNext(tree, pool, key, curr, left);
    var t2 := Put(tree, pool, key, next);
    PutKeeps(tree, pool, key, next, curr);
    NoReach(tree);
    ReachForms(tree, curr);
    ReachForms(t2, curr);
    ReachAbove(tree, other);
    ReachAbove(tree, next);
    PutOutside(tree, pool, key, next, other);
    Untouched(tree, t2, other);
    var a, b := InOrder(tree, Kid(tree, curr, true)), InOrder(tree, Kid(tree, curr, false));
    if Strict(pool, InOrder(tree, curr)) && Novel(pool, key, InOrder(tree, curr)) {
      StrictPut(pool, key, tree[curr].key, left, a, b, InOrder(t2, next));
    }
  }

  /** The node above is as it was, children included. */
  lemma PutKeeps(tree: seq<KeyNode>, pool: seq<Node>, key: nat, next: nat, curr: nat)
    requires Forward(tree) && curr < next < |tree|
    ensures var t2 := Put(tree, pool, key, next);
            t2[curr] == tree[curr] && forall left :: Kid(t2, curr, left) == Kid(tree, curr, left)
  {
    hide Slot;
    hide TextAt;
  }

  lemma PutOutside(tree: seq<KeyNode>, pool: seq<Node>, key: nat, next: nat, other: int)
    requires next < |tree| && Reach(tree, next) !! Reach(tree, other)
    requires Slot(tree, pool, TextAt(pool, key), next).0 in Reach(tree, next)
    ensures forall k :: k in Reach(tree, other) && k < |tree| ==> Put(tree, pool, key, next)[k] == tree[k]
  {
    hide Slot;
    hide TextAt;
    hide Reach;
    ReachAbove(tree, other);
  }

  // ---------------------------------------------------------------- the forest

  /** The object whose key an entry holds. */
  function Owner(pool: seq<Node>, tree: seq<KeyNode>, k: nat): int {
    if k < |tree| && tree[k].key < |pool| then pool[tree[k].key].parent else -1
  }

  /** Keys without NUL. */
  ghost predicate NulFree(pool: seq<Node>, list: seq<nat>) {
    forall j :: j in list ==> 0 !in TextAt(pool, j)
  }

  /** Object `i`'s tree holds only keys of `i`, in order if they are free of NUL. */
  ghost predicate OwnTree(pool: seq<Node>, tree: seq<KeyNode>, i: nat)
    requires i < |pool|
  {
    var r := pool[i].keyTreeRoot;
    && -1 <= r < |tree| && Apart(tree, r)
    && (forall k :: k in Reach(tree, r) ==> Owner(pool, tree, k) == i)
    && (NulFree(pool, InOrder(tree, r)) ==> Strict(pool, InOrder(tree, r)))
  }

  /** Every entry is in the tree of the object it belongs to. */
  ghost predicate Housed(pool: seq<Node>, tree: seq<KeyNode>, k: nat) {
    var i := Owner(pool, tree, k);
    0 <= i < |pool| && k in Reach(tree, pool[i].keyTreeRoot)
  }

  ghost predicate Forest(pool: seq<Node>, tree: seq<KeyNode>) {
    && Forward(tree)
    && (forall k :: 0 <= k < |tree| ==> tree[k].key < |pool|)
    && (forall i :: 0 <= i < |pool| ==> OwnTree(pool, tree, i))
    && (forall k :: 0 <= k < |tree| ==> Housed(pool, tree, k))
  }

  /** Only tokens, parents and roots matter to the forest. */
  ghost predicate SameKeys(a: seq<Node>, b: seq<Node>) {
    && |a| <= |b|
    && (forall j :: 0 <= j < |a| ==> b[j].tok == a[j].tok && b[j].parent == a[j].parent && b[j].keyTreeRoot == a[j].keyTreeRoot)
    && (forall j :: |a| <= j < |b| ==> b[j].keyTreeRoot == -1)
  }

  lemma StrictSame(a: seq<Node>, b: seq<Node>, list: seq<nat>)
    requires forall j :: j in list ==> TextAt(b, j) == TextAt(a, j)
    ensures Strict(a, list) <==> Strict(b, list)
    ensures NulFree(a, list) <==> NulFree(b, list)
  {
    hide TextAt;
    hide Less;
  }

  lemma OwnSame(a: seq<Node>, b: seq<Node>, tree: seq<KeyNode>, i: nat)
    requires SameKeys(a, b) && i < |b| && forall k :: 0 <= k < |tree| ==> tree[k].key < |a|
    requires i < |a| ==> OwnTree(a, tree, i)
    ensures OwnTree(b, tree, i)
  {
    hide Reach;
    hide InOrder;
    hide Apart;
    hide Strict;
    hide NulFree;
    hide KeyText;
    var r := b[i].keyTreeRoot;
    var list := InOrder(tree, r);
    NoReach(tree);
    StrictNone(b);
    ReachAbove(tree, r);
    if i < |a| {
      forall j | j in list ensures TextAt(b, j) == TextAt(a, j) {
        Listed(tree, r, j);
      }
      StrictSame(a, b, list);
    }
  }

  lemma StrictNone(pool: seq<Node>)
    ensures Strict(pool, [])
  {
  }

  lemma ForestSame(a: seq<Node>, b: seq<Node>, tree: seq<KeyNode>)
    requires Forest(a, tree) && SameKeys(a, b)
    ensures Forest(b, tree)
  {
    hide Reach;
    hide OwnTree;
    hide KeyText;
    forall i | 0 <= i < |b| ensures OwnTree(b, tree, i) {
      OwnSame(a, b, tree, i);
    }
    forall k | 0 <= k < |tree| ensures Housed(b, tree, k) {
      assert Housed(a, tree, k);
    }
  }

  // ---------------------------------------------------------------- entering a key

  /** The forest once key `idx` has been put into its object's tree. */
  ghost predicate Entered1(pool: seq<Node>, tree: seq<KeyNode>, root: int, idx: nat, t2: seq<KeyNode>, r: int) {
    && |t2| == |tree| + 1 && Forward(t2) && 0 <= r < |t2|
    && (forall k :: 0 <= k < |tree| ==> t2[k].key == tree[k].key) && t2[|tree|].key == idx
    && Reach(t2, r) == Reach(tree, root) + {|tree|} && Apart(t2, r)
    && (forall j: nat :: j in InOrder(t2, r) <==> j == idx || j in InOrder(tree, root))
    && (Strict(pool, InOrder(tree, root)) && Novel(pool, idx, InOrder(tree, root)) ==> Strict(pool, InOrder(t2, r)))
    && (forall k :: 0 <= k < |tree| && k !in Reach(tree, root) ==> t2[k] == tree[k])
  }

  lemma InsertEnters(cap: nat, tree: seq<KeyNode>, root: int, idx: nat, pool: seq<Node>)
    requires Forward(tree) && -1 <= root < |tree| < cap && Apart(tree, root)
    ensures var r := KeyInsert(cap, tree, root, idx, pool); Entered1(pool, tree, root, idx, r.0, r.1)
  {
    hide Reach;
    hide InOrder;
    hide Apart;
    hide Strict;
    hide Novel;
    hide TextAt;
    hide Slot;
    if root == -1 {
      PlantFirst(tree, idx, pool);
    } else {
      InsertBelow(tree, pool, idx, root);
    }
  }

  /** The first key of an object becomes a tree of its own. */
  lemma PlantFirst(tree: seq<KeyNode>, idx: nat, pool: seq<Node>)
    requires Forward(tree)
    ensures Entered1(pool, tree, -1, idx, tree + [KeyNode(idx, -1, -1)], |tree|)
  {
    hide Reach;
    hide InOrder;
    hide Apart;
    hide Strict;
    hide Novel;
    hide TextAt;
    var t2 := tree + [KeyNode(idx, -1, -1)];
    NoReach(tree);
    NoReach(t2);
    ReachForms(t2, |tree|);
    StrictOne(pool, idx);
    assert InOrder(t2, |tree|) == [idx];
    assert Reach(t2, |tree|) == {|tree|};
  }

  /** The new key comes after all keys in the pool. */
  ghost predicate Newest(tree: seq<KeyNode>, idx: nat) {
    forall k :: 0 <= k < |tree| ==> tree[k].key < idx
  }

  lemma EnterNovel(pool: seq<Node>, tree: seq<KeyNode>, root: int, idx: nat, more: seq<nat>)
    requires Newest(tree, idx) && NulFree(pool, more) && forall j: nat :: j in more <==> j == idx || j in InOrder(tree, root)
    ensures Novel(pool, idx, InOrder(tree, root)) && NulFree(pool, InOrder(tree, root))
  {
    hide Reach;
    hide InOrder;
    hide TextAt;
    var list := InOrder(tree, root);
    assert idx in more;
    forall j | j in list ensures j in more && j < idx {
      Listed(tree, root, j);
    }
  }

  /** The object's own tree after its key was entered. */
  lemma EnterOwn(pool: seq<Node>, tree: seq<KeyNode>, parent: nat, idx: nat, t2: seq<KeyNode>, r: int)
    requires Forest(pool, tree) && parent < |pool| && idx < |pool| && pool[idx].parent == parent
    requires Newest(tree, idx)
    requires Entered1(pool, tree, pool[parent].keyTreeRoot, idx, t2, r)
    ensures OwnTree(pool[parent := pool[parent].(keyTreeRoot := r)], t2, parent)
  {
    hide Reach;
    hide InOrder;
    hide Apart;
    hide Strict;
    hide Novel;
    hide NulFree;
    hide KeyText;
    hide Forward;
    var root := pool[parent].keyTreeRoot;
    var p2 := pool[parent := pool[parent].(keyTreeRoot := r)];
    assert OwnTree(pool, tree, parent);
    ReachAbove(tree, root);
    forall k | k in Reach(t2, r) ensures Owner(p2, t2, k) == parent {
      if k != |tree| {
        assert Owner(pool, tree, k) == parent;
      }
    }
    StrictSame(pool, p2, InOrder(t2, r));
    if NulFree(p2, InOrder(t2, r)) {
      EnterNovel(pool, tree, root, idx, InOrder(t2, r));
    }
  }

  /** Every other object's tree is as it was. */
  lemma EnterOther(pool: seq<Node>, tree: seq<KeyNode>, parent: nat, idx: nat, t2: seq<KeyNode>, r: int, i: nat)
    requires Forest(pool, tree) && parent < |pool| && i < |pool| && i != parent
    requires Entered1(pool, tree, pool[parent].keyTreeRoot, idx, t2, r)
    ensures OwnTree(pool[parent := pool[parent].(keyTreeRoot := r)], t2, i)
    ensures Reach(t2, pool[i].keyTreeRoot) == Reach(tree, pool[i].keyTreeRoot)
    ensures InOrder(t2, pool[i].keyTreeRoot) == InOrder(tree, pool[i].keyTreeRoot)
  {
    hide Reach;
    hide InOrder;
    hide Apart;
    hide Strict;
    hide Novel;
    hide NulFree;
    hide KeyText;
    hide Forward;
    var root := pool[parent].keyTreeRoot;
    var p2 := pool[parent := pool[parent].(keyTreeRoot := r)];
    assert OwnTree(pool, tree, parent) && OwnTree(pool, tree, i);
    var q := pool[i].keyTreeRoot;
    ReachAbove(tree, q);
    forall k | k in Reach(tree, q) && k < |tree| ensures t2[k] == tree[k] {
      assert Owner(pool, tree, k) == i;
      assert k !in Reach(tree, root);
    }
    Untouched(tree, t2, q);
    StrictSame(pool, p2, InOrder(t2, q));
    forall k | k in Reach(t2, q) ensures Owner(p2, t2, k) == i {
      assert Owner(pool, tree, k) == i;
    }
  }

  lemma EnterHouses(pool: seq<Node>, tree: seq<KeyNode>, parent: nat, idx: nat, t2: seq<KeyNode>, r: int, k: nat)
    requires Forest(pool, tree) && parent < |pool| && idx < |pool| && pool[idx].parent == parent
    requires Entered1(pool, tree, pool[parent].keyTreeRoot, idx, t2, r) && k < |t2|
    ensures Housed(pool[parent := pool[parent].(keyTreeRoot := r)], t2, k)
  {
    hide Reach;
    hide InOrder;
    hide Apart;
    hide Strict;
    hide Novel;
    hide KeyText;
    hide Forward;
    hide OwnTree;
    if k < |tree| {
      assert Housed(pool, tree, k);
      var i := Owner(pool, tree, k);
      if i != parent {
        EnterOther(pool, tree, parent, idx, t2, r, i);
      }
    }
  }

  /** Entering a key keeps the forest. */
  lemma EnterForest(cap: nat, pool: seq<Node>, tree: seq<KeyNode>, parent: nat, idx: nat)
    requires Forest(pool, tree) && parent < |pool| && idx < |pool| && pool[idx].parent == parent && |tree| < cap
    requires Newest(tree, idx)
    ensures var ins := KeyInsert(cap, tree, pool[parent].keyTreeRoot, idx, pool);
            && Forest(pool[parent := pool[parent].(keyTreeRoot := ins.1)], ins.0)
            && |ins.0| == |tree| + 1 && ins.0[|tree|].key == idx && forall k :: 0 <= k < |tree| ==> ins.0[k].key == tree[k].key
  {
    hide Reach;
    hide InOrder;
    hide Apart;
    hide Strict;
    hide Novel;
    hide KeyText;
    hide Forward;
    hide KeyInsert;
    hide OwnTree;
    hide Housed;
    var ins := KeyInsert(cap, tree, pool[parent].keyTreeRoot, idx, pool);
    var p2 := pool[parent := pool[parent].(keyTreeRoot := ins.1)];
    OwnRoot(pool, tree, parent);
    InsertEnters(cap, tree, pool[parent].keyTreeRoot, idx, pool);
    forall i | 0 <= i < |p2| ensures OwnTree(p2, ins.0, i) {
      if i == parent {
        EnterOwn(pool, tree, parent, idx, ins.0, ins.1);
      } else {
        EnterOther(pool, tree, parent, idx, ins.0, ins.1, i);
      }
    }
    forall k | 0 <= k < |ins.0| ensures Housed(p2, ins.0, k) {
      EnterHouses(pool, tree, parent, idx, ins.0, ins.1, k);
    }
  }

  lemma OwnRoot(pool: seq<Node>, tree: seq<KeyNode>, i: nat)
    requires i < |pool| && OwnTree(pool, tree, i)
    ensures -1 <= pool[i].keyTreeRoot < |tree| && Apart(tree, pool[i].keyTreeRoot)
  {
    hide Apart;
    hide NulFree;
    hide Strict;
  }
}
