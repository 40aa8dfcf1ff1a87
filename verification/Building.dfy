/** How the parser builds the node pool: `new_node`, `link_node_to_scope` and the scope
    stack (src/parser/parser.c), as functions of the state, and the pool that results from
    building a whole value. */
module Building {
  import opened Bytes
  import opened Ast
  import opened Keywords
  import opened KeyTree
  import opened KeySet
  import opened ScopedKeys

  /** The node stack, the scope stack (parent, last sibling and count of each open
      container, as three entries), the keys seen and the key-tree pool. */
  datatype St = St(nodes: seq<Node>, scopes: seq<int>, keys: set<bytes>, tree: seq<KeyNode>)

  /** Capacities of the key set and the key-tree pool. */
  datatype Limits = Limits(keys: nat, tree: nat)

  function NewNode(kind: NodeKind, tok: Token): (n: Node)
    ensures n.keyTreeRoot == -1 && n.parent == -1
  {
    Node(tok, -1, kind, -1, -1, -1)
  }

  function Count(st: St): int requires |st.scopes| >= 3 { st.scopes[|st.scopes| - 1] }

  function Tail(st: St): int requires |st.scopes| >= 3 { st.scopes[|st.scopes| - 2] }

  function Parent(st: St): int requires |st.scopes| >= 3 { st.scopes[|st.scopes| - 3] }

  /** Each open container is a pool node, and so is its last child. */
  ghost predicate ScopesOk(scopes: seq<int>, n: nat) {
    |scopes| < 3 || (0 <= scopes[|scopes| - 3] < n && -1 <= scopes[|scopes| - 2] < n && scopes[|scopes| - 1] >= 0
                     && ScopesOk(scopes[..|scopes| - 3], n))
  }

  ghost predicate StOk(st: St) {
    && ScopesOk(st.scopes, |st.nodes|)
    && Forward(st.tree)
    && (forall i :: 0 <= i < |st.tree| ==> st.tree[i].key < |st.nodes|)
    && (forall i :: 0 <= i < |st.nodes| ==> -1 <= st.nodes[i].keyTreeRoot < |st.tree|)
  }

  lemma {:induction false} ScopesGrow(scopes: seq<int>, n: nat, m: nat)
    requires ScopesOk(scopes, n) && n <= m
    ensures ScopesOk(scopes, m)
  {
    if |scopes| >= 3 {
      ScopesGrow(scopes[..|scopes| - 3], n, m);
    }
  }

  /** The nodes once node `idx` hangs below its parent, behind its last sibling. */
  function Linked(nodes: seq<Node>, parent: nat, tail: int, idx: nat): (r: seq<Node>)
    requires parent < |nodes| && idx < |nodes| && -1 <= tail < |nodes|
    ensures |r| == |nodes|
  {
    var nodes1 := nodes[idx := nodes[idx].(parent := parent)];
    if tail == -1 then nodes1[parent := nodes1[parent].(firstChild := idx)]
    else nodes1[tail := nodes1[tail].(nextSibling := idx)]
  }

  /** A value whose key was skipped is skipped too. */
  function SkipValue(nodes: seq<Node>, parent: nat, tail: int, count: int, idx: nat): (r: seq<Node>)
    requires parent < |nodes| && idx < |nodes| && -1 <= tail < |nodes|
    ensures |r| == |nodes|
  {
    if nodes[parent].tok.kind == TBraceOpen && count % 2 != 0 && tail != -1 && nodes[tail].kind == AstSkipped
    then nodes[idx := nodes[idx].(kind := AstSkipped)]
    else nodes
  }

  /** The nodes from `c` on along the sibling links. */
  function Siblings(nodes: seq<Node>, c: int): seq<int>
    decreases |nodes| - c
  {
    if !(0 <= c < |nodes|) then []
    else [c] + (if nodes[c].nextSibling > c then Siblings(nodes, nodes[c].nextSibling) else [])
  }

  function Children(nodes: seq<Node>, p: nat): seq<int>
    requires p < |nodes|
  {
    Siblings(nodes, nodes[p].firstChild)
  }

  /** Hanging a node behind the end of a chain lengthens the chain by that node. */
  lemma {:induction false} SiblingsAppend(a: seq<Node>, b: seq<Node>, c: int, tail: nat, idx: nat)
    requires 0 <= c <= tail < idx < |a| == |b| && Siblings(a, c) != [] && Siblings(a, c)[|Siblings(a, c)| - 1] == tail
    requires a[tail].nextSibling == -1 && b[tail].nextSibling == idx && b[idx].nextSibling == -1
    requires forall q :: c <= q < |a| && q != tail && q != idx ==> b[q].nextSibling == a[q].nextSibling
    ensures Siblings(b, c) == Siblings(a, c) + [idx]
    decreases tail - c
  {
    if c == tail {
      assert Siblings(b, idx) == [idx];
    } else {
      var n := a[c].nextSibling;
      assert n > c && 0 <= n < |a| && Siblings(a, c) == [c] + Siblings(a, n);
      SiblingsInside(a, n);
      assert n <= tail;
      SiblingsAppend(a, b, n, tail, idx);
      assert [c] + (Siblings(a, n) + [idx]) == Siblings(a, c) + [idx];
    }
  }

  lemma {:induction false} SiblingsInside(nodes: seq<Node>, c: int)
    requires 0 <= c < |nodes|
    ensures var s := Siblings(nodes, c); s != [] && c <= s[|s| - 1]
    decreases |nodes| - c
  {
    var n := nodes[c].nextSibling;
    if c < n < |nodes| {
      SiblingsInside(nodes, n);
    }
  }

  /** Linking the newest node makes it the last child of its parent, skipped exactly when it
      is the value of a skipped key; no other child, and no other node, is touched. */
  lemma LinkAppends(nodes: seq<Node>, parent: nat, tail: int, count: int, idx: nat)
    requires parent < idx < |nodes| && -1 <= tail < idx && tail != parent && nodes[idx].nextSibling == -1
    requires if tail == -1 then Children(nodes, parent) == []
             else parent < nodes[parent].firstChild <= tail && nodes[tail].nextSibling == -1
                  && Children(nodes, parent) != [] && Children(nodes, parent)[|Children(nodes, parent)| - 1] == tail
    ensures var r := SkipValue(Linked(nodes, parent, tail, idx), parent, tail, count, idx);
            && Children(r, parent) == Children(nodes, parent) + [idx] && r[idx].parent == parent
            && (r[idx].kind == AstSkipped <==>
                  nodes[idx].kind == AstSkipped
                  || (nodes[parent].tok.kind == TBraceOpen && count % 2 == 1 && tail != -1 && nodes[tail].kind == AstSkipped))
            && (forall q :: 0 <= q < |r| && q != idx ==> r[q].kind == nodes[q].kind && r[q].parent == nodes[q].parent)
            && (forall q :: 0 <= q < |r| ==> r[q].tok == nodes[q].tok && r[q].keyTreeRoot == nodes[q].keyTreeRoot)
            && (forall q :: 0 <= q < |r| && q != parent && q != tail && q != idx ==> r[q] == nodes[q])
  {
    var r := SkipValue(Linked(nodes, parent, tail, idx), parent, tail, count, idx);
    if tail == -1 {
      assert Siblings(r, idx) == [idx];
    } else {
      SiblingsAppend(nodes, r, nodes[parent].firstChild, tail, idx);
    }
  }

  /** Duplicate detection and key sorting. */
  function EnterKey(lim: Limits, st: St, parent: nat, idx: nat): (r: St)
    requires parent < |st.nodes| && idx < |st.nodes|
    ensures |r.nodes| == |st.nodes| && r.scopes == st.scopes
  {
    var key := Scoped(parent, KeyText(st.nodes[idx].tok));
    if |key| > MAX_STORED_LEN then st
    else if |key| <= MAX_KEY_LEN && key in st.keys then
      st.(nodes := st.nodes[idx := st.nodes[idx].(kind := AstSkipped)])
    else
      var ins := KeyInsert(lim.tree, st.tree, st.nodes[parent].keyTreeRoot, idx, st.nodes);
      St(st.nodes[parent := st.nodes[parent].(keyTreeRoot := ins.1)], st.scopes,
         if |key| <= MAX_KEY_LEN && |st.keys| < lim.keys then st.keys + {key} else st.keys, ins.0)
  }

  /** `link_node_to_scope`, for the node pushed last. */
  function LinkLast(lim: Limits, st: St): (r: St)
    requires StOk(st) && st.nodes != []
    ensures |r.nodes| == |st.nodes| && |r.scopes| == |st.scopes|
  {
    if |st.scopes| < 3 then st
    else
      var idx, m := |st.nodes| - 1, |st.scopes|;
      var count, tail, parent := Count(st), Tail(st), Parent(st);
      var nodes := SkipValue(Linked(st.nodes, parent, tail, idx), parent, tail, count, idx);
      var st1 := st.(nodes := nodes, scopes := st.scopes[m - 2 := idx][m - 1 := count + 1]);
      if nodes[parent].tok.kind == TBraceOpen && count % 2 == 0 then EnterKey(lim, st1, parent, idx) else st1
  }

  lemma {:induction false} ScopesAdvance(scopes: seq<int>, n: nat, idx: nat)
    requires ScopesOk(scopes, n) && |scopes| >= 3 && idx < n
    ensures ScopesOk(scopes[|scopes| - 2 := idx][|scopes| - 1 := scopes[|scopes| - 1] + 1], n)
  {
    var m := |scopes|;
    assert scopes[m - 2 := idx][m - 1 := scopes[m - 1] + 1][..m - 3] == scopes[..m - 3];
  }

  lemma EnterKeeps(lim: Limits, st: St, parent: nat, idx: nat)
    requires StOk(st) && parent < |st.nodes| && idx < |st.nodes|
    ensures StOk(EnterKey(lim, st, parent, idx))
  {
    hide Scoped;
    hide ScopesOk;
    hide KeyText;
    hide KeyInsert;
    InsertKeeps(lim.tree, st.tree, st.nodes[parent].keyTreeRoot, idx, st.nodes);
  }

  lemma InsertKeeps(cap: nat, tree: seq<KeyNode>, root: int, key: nat, nodes: seq<Node>)
    requires Forward(tree) && key < |nodes| && forall i :: 0 <= i < |tree| ==> tree[i].key < |nodes|
    ensures var r := KeyInsert(cap, tree, root, key, nodes);
            && Forward(r.0) && -1 <= r.1 < |r.0| && |tree| <= |r.0|
            && forall i :: 0 <= i < |r.0| ==> r.0[i].key < |nodes|
  {
    hide Slot;
    hide TextAt;
  }

  lemma LinkKeeps(lim: Limits, st: St)
    requires StOk(st) && st.nodes != []
    ensures StOk(LinkLast(lim, st))
  {
    hide ScopesOk;
    hide EnterKey;
    hide Forward;
    if |st.scopes| >= 3 {
      ScopesMean(st);
      var idx, m := |st.nodes| - 1, |st.scopes|;
      ScopesAdvance(st.scopes, |st.nodes|, idx);
      var nodes := SkipValue(Linked(st.nodes, Parent(st), Tail(st), idx), Parent(st), Tail(st), Count(st), idx);
      var st1 := st.(nodes := nodes, scopes := st.scopes[m - 2 := idx][m - 1 := Count(st) + 1]);
      assert forall i :: 0 <= i < |nodes| ==> nodes[i].keyTreeRoot == st.nodes[i].keyTreeRoot;
      EnterKeeps(lim, st1, Parent(st), idx);
    }
  }

  lemma ScopesMean(st: St)
    requires StOk(st) && |st.scopes| >= 3
    ensures 0 <= Parent(st) < |st.nodes| && -1 <= Tail(st) < |st.nodes| && Count(st) >= 0
  {
    hide Forward;
  }

  /** Push a new node and link it. */
  function Push(lim: Limits, st: St, n: Node): (r: St)
    requires StOk(st) && n.keyTreeRoot == -1
    ensures StOk(r) && |r.nodes| == |st.nodes| + 1 && |r.scopes| == |st.scopes|
  {
    var st1 := st.(nodes := st.nodes + [n]);
    PushKeeps(st, n);
    LinkKeeps(lim, st1);
    LinkLast(lim, st1)
  }

  lemma PushKeeps(st: St, n: Node)
    requires StOk(st) && n.keyTreeRoot == -1
    ensures StOk(st.(nodes := st.nodes + [n]))
  {
    hide ScopesOk;
    hide Forward;
    ScopesGrow(st.scopes, |st.nodes|, |st.nodes| + 1);
  }

  /** Open the container pushed last. */
  function OpenScope(st: St): (r: St)
    requires StOk(st) && st.nodes != []
    ensures StOk(r) && r.nodes == st.nodes && |r.scopes| == |st.scopes| + 3
  {
    var r := st.(scopes := st.scopes + [|st.nodes| - 1, -1, 0]);
    OpenKeeps(st);
    r
  }

  lemma OpenKeeps(st: St)
    requires StOk(st) && st.nodes != []
    ensures StOk(st.(scopes := st.scopes + [|st.nodes| - 1, -1, 0]))
  {
    hide Forward;
    var s := st.scopes + [|st.nodes| - 1, -1, 0];
    assert s[..|s| - 3] == st.scopes;
  }

  function CloseScope(st: St): (r: St)
    requires StOk(st) && |st.scopes| >= 3
    ensures StOk(r) && r.nodes == st.nodes && |r.scopes| == |st.scopes| - 3
  {
    CloseKeeps(st);
    st.(scopes := st.scopes[..|st.scopes| - 3])
  }

  lemma CloseKeeps(st: St)
    requires StOk(st) && |st.scopes| >= 3
    ensures StOk(st.(scopes := st.scopes[..|st.scopes| - 3]))
  {
    hide Forward;
  }

  // ---------------------------------------------------------------- building a value

  /** What the parser does for a whole value. */
  function AddTree(lim: Limits, st: St, t: Tree): (r: St)
    requires StOk(st)
    ensures StOk(r) && |r.nodes| >= |st.nodes| + 1 && |r.scopes| == |st.scopes|
    decreases t
  {
    match t
    case Leaf(_, tok) => Push(lim, st, NewNode(AstLeaf, tok))
    case Arr(_, items) => CloseScope(AddItems(lim, OpenScope(Push(lim, st, NewNode(AstArray, BracketToken))), items))
    case Obj(_, ms) => CloseScope(AddMembers(lim, OpenScope(Push(lim, st, NewNode(AstObject, BraceToken))), ms))
  }

  function AddItems(lim: Limits, st: St, items: seq<Tree>): (r: St)
    requires StOk(st)
    ensures StOk(r) && |r.nodes| >= |st.nodes| && |r.scopes| == |st.scopes|
    decreases items
  {
    if items == [] then st else AddItems(lim, AddTree(lim, st, items[0]), items[1..])
  }

  function AddMembers(lim: Limits, st: St, ms: seq<Member>): (r: St)
    requires StOk(st)
    ensures StOk(r) && |r.nodes| >= |st.nodes| && |r.scopes| == |st.scopes|
    decreases ms
  {
    if ms == [] then st
    else
      assert ms[0].val < ms[0];
      AddMembers(lim, AddTree(lim, Push(lim, st, NewNode(AstLeaf, ms[0].key)), ms[0].val), ms[1..])
  }
}
