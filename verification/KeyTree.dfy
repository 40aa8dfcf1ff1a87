/** The pool of binary search trees over object keys (src/parser/keytree.c). */
module KeyTree {
  import opened Bytes
  import opened Ast
  import opened Unescape
  import opened Keywords

  // ---------------------------------------------------------------- comparing keys

  /** The text of a key: its slice, decoded if it has escapes. */
  function KeyText(t: Token): bytes {
    if t.esc then Unescaped(t.raw) else t.raw
  }

  /** `strncmp` over the shorter length: it stops at the first difference or at a NUL. */
  function Strncmp(a: bytes, b: bytes): int {
    if a == [] || b == [] then 0
    else if a[0] != b[0] then a[0] as int - b[0] as int
    else if a[0] == 0 then 0
    else Strncmp(a[1..], b[1..])
  }

  /** `compare_keys`. */
  function Compare(a: bytes, b: bytes): int {
    if Strncmp(a, b) != 0 then Strncmp(a, b) else |a| - |b|
  }

  /** Byte order: the order of section 4 of RFC 3629's code units, shorter first. */
  predicate Less(a: bytes, b: bytes) {
    b != [] && (a == [] || a[0] < b[0] || (a[0] == b[0] && Less(a[1..], b[1..])))
  }

  /** Keys without NUL are compared by byte order, and are equal only to themselves. */
  lemma {:induction false} CompareIsOrder(a: bytes, b: bytes)
    requires 0 !in a && 0 !in b
    ensures Compare(a, b) < 0 <==> Less(a, b)
    ensures Compare(a, b) == 0 <==> a == b
    ensures Compare(a, b) > 0 <==> Less(b, a)
  {
    if a != [] && b != [] && a[0] == b[0] {
      CompareIsOrder(a[1..], b[1..]);
      assert a == [a[0]] + a[1..] && b == [b[0]] + b[1..];
    }
  }

  lemma {:induction false} LessTransitive(a: bytes, b: bytes, c: bytes)
    requires Less(a, b) && Less(b, c)
    ensures Less(a, c)
  {
    if a != [] && a[0] == b[0] && b[0] == c[0] {
      LessTransitive(a[1..], b[1..], c[1..]);
    }
  }

  lemma {:induction false} LessIrreflexive(a: bytes)
    ensures !Less(a, a)
  {
    if a != [] {
      LessIrreflexive(a[1..]);
    }
  }

  // ---------------------------------------------------------------- inserting

  datatype KeyNode = KeyNode(key: nat, left: int, right: int)

  function TextAt(nodes: seq<Node>, i: nat): bytes {
    if i < |nodes| then KeyText(nodes[i].tok) else []
  }

  /** Where a key goes: below which node, and on which side. Children come later in the
      pool than their parent. */
  function Slot(tree: seq<KeyNode>, nodes: seq<Node>, text: bytes, curr: nat): (s: (nat, bool))
    requires curr < |tree|
    ensures curr <= s.0 < |tree|
    decreases |tree| - curr
  {
    var left := Compare(text, TextAt(nodes, tree[curr].key)) < 0;
    var next := if left then tree[curr].left else tree[curr].right;
    if curr < next < |tree| then Slot(tree, nodes, text, next) else (curr, left)
  }

  function Attach(tree: seq<KeyNode>, at: nat, left: bool, child: nat): (r: seq<KeyNode>)
    requires at < |tree|
    ensures |r| == |tree|
  {
    if left then tree[at := tree[at].(left := child)] else tree[at := tree[at].(right := child)]
  }

  /** The pool and the root after an insertion; a full pool answers with no root at all. */
  function KeyInsert(cap: nat, tree: seq<KeyNode>, root: int, key: nat, nodes: seq<Node>): (seq<KeyNode>, int) {
    if |tree| >= cap then (tree, -1)
    else
      var grown := tree + [KeyNode(key, -1, -1)];
      if !(0 <= root < |tree|) then (grown, |tree|)
      else
        var s := Slot(tree, nodes, TextAt(nodes, key), root);
        (Attach(grown, s.0, s.1, |tree|), root)
  }

  /** Links lead forward in the pool or nowhere. */
  ghost predicate Forward(tree: seq<KeyNode>) {
    forall i :: 0 <= i < |tree| ==>
      (tree[i].left == -1 || i < tree[i].left < |tree|) && (tree[i].right == -1 || i < tree[i].right < |tree|)
  }

  /** The left or right child of a node, or -1. */
  function Kid(tree: seq<KeyNode>, r: nat, left: bool): (c: int)
    requires r < |tree|
    ensures c == -1 || r < c < |tree|
  {
    var c := if left then tree[r].left else tree[r].right;
    if r < c < |tree| then c else -1
  }

  /** The keys below a root, left subtree first. */
  function InOrder(tree: seq<KeyNode>, r: int): seq<nat>
    decreases if 0 <= r < |tree| then |tree| - r else 0
  {
    if 0 <= r < |tree| then InOrder(tree, Kid(tree, r, true)) + [tree[r].key] + InOrder(tree, Kid(tree, r, false))
    else []
  }

  class KeyTreePool {
    const capacity: nat
    var nodes: seq<KeyNode>

    /** `key_tree_init`. */
    constructor (cap: nat)
      ensures capacity == cap && nodes == []
    {
      capacity := cap;
      nodes := [];
    }

    /** `compare_keys`, on two keys of the node pool. */
    method CompareKeys(pool: seq<Node>, a: nat, b: nat) returns (c: int)
      requires a < |pool| && b < |pool|
      ensures c == Compare(KeyText(pool[a].tok), KeyText(pool[b].tok))
    {
      hide *;
      var s := KeyText(pool[a].tok);
      var t := KeyText(pool[b].tok);
      CompareEmpty();
      var i := 0;
      assert s[0..] == s && t[0..] == t;
      while i < |s| && i < |t|
        invariant i <= |s| && i <= |t|
        invariant Strncmp(s, t) == Strncmp(s[i..], t[i..])
      {
        StrncmpStep(s[i..], t[i..]);
        assert s[i..][1..] == s[i + 1..] && t[i..][1..] == t[i + 1..];
        if s[i] != t[i] {
          CompareIs(s, t);
          return s[i] as int - t[i] as int;
        }
        if s[i] == 0 {
          break;
        }
        i := i + 1;
      }
      if i == |s| || i == |t| {
        StrncmpEnd(s[i..], t[i..]);
      }
      CompareIs(s, t);
      c := |s| - |t|;
    }

    /** `key_tree_insert`. */
    method Insert(root: int, key: nat, pool: seq<Node>) returns (r: int)
      requires Forward(nodes) && key < |pool| && -1 <= root < |nodes|
      requires forall i :: 0 <= i < |nodes| ==> nodes[i].key < |pool|
      modifies this
      ensures (nodes, r) == KeyInsert(capacity, old(nodes), root, key, pool)
      ensures Forward(nodes) && -1 <= r < |nodes| && |nodes| <= |old(nodes)| + 1
      ensures forall i :: 0 <= i < |nodes| ==> nodes[i].key < |pool|
    {
      if |nodes| >= capacity {
        return -1;
      }
      var child := |nodes|;
      ghost var before := nodes;
      nodes := nodes + [KeyNode(key, -1, -1)];
      if root == -1 {
        return child;
      }
      var curr: nat := root;
      while true
        invariant curr < |before| && nodes == before + [KeyNode(key, -1, -1)]
        invariant Slot(before, pool, TextAt(pool, key), curr) == Slot(before, pool, TextAt(pool, key), root)
        decreases |before| - curr
      {
        var cmp := CompareKeys(pool, key, nodes[curr].key);
        var left := cmp < 0;
        var next := if left then nodes[curr].left else nodes[curr].right;
        if next == -1 {
          nodes := if left then nodes[curr := nodes[curr].(left := child)] else nodes[curr := nodes[curr].(right := child)];
          break;
        }
        curr := next;
      }
      r := root;
    }

    /** `get_ordered_recursive`: appends the keys below `root` to the output. */
    method Collect(root: int, output: array<nat>, count: nat) returns (n: nat)
      requires Forward(nodes) && -1 <= root < |nodes| && count + |InOrder(nodes, root)| <= output.Length
      modifies output
      ensures n == count + |InOrder(nodes, root)|
      ensures output[..n] == old(output[..count]) + InOrder(nodes, root)
      decreases |nodes| - root, if root == -1 then 0 else 1
    {
      hide InOrder;
      InOrderForms(nodes, root);
      if root == -1 {
        return count;
      }
      ghost var left := InOrder(nodes, nodes[root].left);
      ghost var right := InOrder(nodes, nodes[root].right);
      n := CollectKid(nodes[root].left, root, output, count);
      output[n] := nodes[root].key;
      n := n + 1;
      assert output[..n] == old(output[..count]) + left + [nodes[root].key];
      n := CollectKid(nodes[root].right, root, output, n);
      Regroup(old(output[..count]), left + [nodes[root].key], right);
    }

    method CollectKid(kid: int, ghost parent: nat, output: array<nat>, count: nat) returns (n: nat)
      requires Forward(nodes) && parent < |nodes| && (kid == -1 || parent < kid < |nodes|)
      requires count + |InOrder(nodes, kid)| <= output.Length
      modifies output
      ensures n == count + |InOrder(nodes, kid)|
      ensures output[..n] == old(output[..count]) + InOrder(nodes, kid)
      decreases |nodes| - parent, 0
    {
      hide InOrder;
      InOrderForms(nodes, kid);
      if kid == -1 {
        return count;
      }
      n := Collect(kid, output, count);
    }

    /** `key_tree_get_ordered`. */
    method GetOrdered(root: int, output: array<nat>) returns (count: nat)
      requires Forward(nodes) && -1 <= root < |nodes| && |InOrder(nodes, root)| <= output.Length
      modifies output
      ensures count == |InOrder(nodes, root)| && output[..count] == InOrder(nodes, root)
    {
      hide InOrder;
      count := Collect(root, output, 0);
    }
  }

  lemma InOrderForms(tree: seq<KeyNode>, r: int)
    requires Forward(tree) && -1 <= r < |tree|
    ensures InOrder(tree, -1) == []
    ensures r >= 0 ==> InOrder(tree, r) == InOrder(tree, tree[r].left) + [tree[r].key] + InOrder(tree, tree[r].right)
  {
  }

  lemma CompareEmpty()
    ensures Strncmp([], []) == 0
  {
  }

  lemma StrncmpStep(a: bytes, b: bytes)
    requires a != [] && b != []
    ensures a[0] != b[0] ==> Strncmp(a, b) == a[0] as int - b[0] as int && Strncmp(a, b) != 0
    ensures a[0] == b[0] && a[0] == 0 ==> Strncmp(a, b) == 0
    ensures a[0] == b[0] && a[0] != 0 ==> Strncmp(a, b) == Strncmp(a[1..], b[1..])
  {
  }

  lemma StrncmpEnd(a: bytes, b: bytes)
    requires a == [] || b == []
    ensures Strncmp(a, b) == 0
  {
  }

  lemma CompareIs(a: bytes, b: bytes)
    ensures Compare(a, b) == if Strncmp(a, b) != 0 then Strncmp(a, b) else |a| - |b|
  {
    hide Strncmp;
  }
}
