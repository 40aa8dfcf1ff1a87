/** From the node pool to runtime values (`ast_to_value`, src/parser/parser.c): every object
    gets its stored keys in the order of its key tree, and of a repeated key the last value. */
module Convert {
  import opened Bytes
  import opened Ast
  import opened Unescape
  import opened Keywords
  import opened KeyTree
  import opened ScopedKeys
  import opened KeyForest
  import opened KeyOrder
  import opened Values
  import opened Heap

  // ---------------------------------------------------------------- leaves

  /** Bytes that make a numeral one for `strtod`. */
  predicate IsFloat(raw: bytes) { 46 in raw || 101 in raw || 69 in raw }

  function DigitsValue(s: bytes): int {
    if s == [] then 0 else 10 * DigitsValue(s[..|s| - 1]) + (s[|s| - 1] as int - 48)
  }

  /** What `strtoll` reads from an integer numeral. */
  function IntegerOf(raw: bytes): int {
    if raw != [] && raw[0] == 45 then 0 - DigitsValue(raw[1..]) else DigitsValue(raw)
  }

  const BUFFER: nat := 128

  function NumberValue(strtod: bytes -> Bits, raw: bytes): Value {
    if |raw| >= BUFFER then VBignum(Some(raw))
    else if IsFloat(raw) then VDouble(strtod(raw))
    else if -0x8000_0000_0000_0000 <= IntegerOf(raw) < 0x8000_0000_0000_0000 then VInt(IntegerOf(raw))
    else VBignum(Some(raw))
  }

  function LeafValue(strtod: bytes -> Bits, tok: Token): Value {
    match tok.kind
    case TNumber => NumberValue(strtod, tok.raw)
    case TTrue => VBool(true)
    case TFalse => VBool(false)
    case TString => VString(Some(KeyText(tok)))
    case _ => VNull
  }

  // ---------------------------------------------------------------- positions

  /** Where item `k` stands in the pool. */
  function ItemPos(pos: nat, items: seq<Tree>, k: nat): nat
    requires k <= |items|
    decreases k
  {
    if k == 0 then pos else ItemPos(pos + Len(items[0]), items[1..], k - 1)
  }

  /** Where the key of member `k` stands. */
  function KeyPos(pos: nat, ms: seq<Member>, k: nat): nat
    requires k <= |ms|
    decreases k
  {
    if k == 0 then pos else KeyPos(pos + 1 + Len(ms[0].val), ms[1..], k - 1)
  }

  /** The member whose key stands at `p`. */
  function MemberIdx(pos: nat, ms: seq<Member>, p: nat): (r: Option<nat>)
    ensures r.Some? ==> r.value < |ms| && KeyPos(pos, ms, r.value) == p
    decreases |ms|
  {
    if ms == [] then None
    else if p == pos then Some(0)
    else
      match MemberIdx(pos + 1 + Len(ms[0].val), ms[1..], p)
      case None => None
      case Some(i) => Some(i + 1)
  }

  lemma {:induction false} ItemAt(pool: seq<Node>, pos: nat, items: seq<Tree>, k: nat)
    requires ItemsAt(pool, pos, items) && k < |items|
    ensures At(pool, ItemPos(pos, items, k), items[k]) && ItemPos(pos, items, k) < |pool|
    ensures pool[ItemPos(pos, items, k)].nextSibling == if k == |items| - 1 then -1 else ItemPos(pos, items, k + 1)
    decreases k
  {
    hide At;
    hide Len;
    AtInside(pool, pos, items[0]);
    if k == 0 {
      assert ItemPos(pos + Len(items[0]), items[1..], 0) == pos + Len(items[0]);
    } else {
      ItemAt(pool, pos + Len(items[0]), items[1..], k - 1);
    }
  }

  lemma AtInside(pool: seq<Node>, i: nat, t: Tree)
    requires At(pool, i, t)
    ensures i < |pool|
  {
    hide ItemsAt;
    hide MembersAt;
  }

  lemma {:induction false} MemberAt(pool: seq<Node>, pos: nat, ms: seq<Member>, k: nat)
    requires MembersAt(pool, pos, ms) && k < |ms|
    ensures var p := KeyPos(pos, ms, k); KeyAt(pool, p, ms[k]) && At(pool, p + 1, ms[k].val)
    decreases k
  {
    hide At;
    hide KeyAt;
    hide Len;
    assert ms[0].val < ms[0];
    if k > 0 {
      MemberAt(pool, pos + 1 + Len(ms[0].val), ms[1..], k - 1);
    }
  }

  // ---------------------------------------------------------------- what can be converted

  const MAX_OBJ_KEYS: nat := 256

  /** The object's sorted keys are keys of stored members, in order and without NUL, and not
      too many for the array that takes them. */
  ghost predicate ListOk(pool: seq<Node>, tree: seq<KeyNode>, at: nat, ms: seq<Member>) {
    && at < |pool| && -1 <= pool[at].keyTreeRoot < |tree|
    && var list := InOrder(tree, pool[at].keyTreeRoot);
       && |list| <= MAX_OBJ_KEYS && Strict(pool, list)
       && forall p :: p in list ==> KeyOk(pool, at, at + 1, ms, p)
  }

  ghost predicate KeyOk(pool: seq<Node>, parent: nat, pos: nat, ms: seq<Member>, p: nat) {
    && 0 !in TextAt(pool, p)
    && var m := MemberIdx(pos, ms, p);
       m.Some? && StoredKey(parent, ms[m.value])
  }

  ghost predicate Convertible(pool: seq<Node>, tree: seq<KeyNode>, at: nat, t: Tree)
    decreases t, 2
  {
    !t.skip &&
    match t
    case Leaf(_, _) => true
    case Arr(_, items) => ItemsConvertible(pool, tree, at + 1, items)
    case Obj(_, ms) => ListOk(pool, tree, at, ms) && MembersConvertible(pool, tree, at, at + 1, ms)
  }

  ghost predicate ItemsConvertible(pool: seq<Node>, tree: seq<KeyNode>, pos: nat, items: seq<Tree>)
    decreases items, 1
  {
    forall k :: 0 <= k < |items| ==> ItemConvertible(pool, tree, pos, items, k)
  }

  ghost predicate ItemConvertible(pool: seq<Node>, tree: seq<KeyNode>, pos: nat, items: seq<Tree>, k: nat)
    requires k < |items|
    decreases items, 0
  {
    Convertible(pool, tree, ItemPos(pos, items, k), items[k])
  }

  /** Only the values of stored keys are looked at. */
  ghost predicate MembersConvertible(pool: seq<Node>, tree: seq<KeyNode>, parent: nat, pos: nat, ms: seq<Member>)
    decreases ms, 1
  {
    forall k :: 0 <= k < |ms| && StoredKey(parent, ms[k]) ==> MemberConvertible(pool, tree, pos, ms, k)
  }

  ghost predicate MemberConvertible(pool: seq<Node>, tree: seq<KeyNode>, pos: nat, ms: seq<Member>, k: nat)
    requires k < |ms|
    decreases ms, 0
  {
    assert ms[k].val < ms[k];
    Convertible(pool, tree, KeyPos(pos, ms, k) + 1, ms[k].val)
  }

  // ---------------------------------------------------------------- what the result is

  /** Containers from these indices on. */
  datatype Floor = Floor(dicts: nat, lists: nat)

  /** `v` is the value of the tree at `at`, made of containers above the floor. */
  ghost predicate Represents(strtod: bytes -> Bits, w: World, v: Value, pool: seq<Node>, tree: seq<KeyNode>, at: nat, t: Tree, lo: Floor)
    decreases t, 2
  {
    match t
    case Leaf(_, tok) => v == LeafValue(strtod, tok)
    case Arr(_, items) =>
      && v.VArr? && v.arr.Some? && lo.lists <= v.arr.value < |w.lists|
      && |w.lists[v.arr.value]| == |items|
      && RepItems(strtod, w, w.lists[v.arr.value], pool, tree, at + 1, items, lo)
    case Obj(_, ms) =>
      && v.VObj? && v.obj.Some? && lo.dicts <= v.obj.value < |w.dicts| && at < |pool|
      && var list := Finals(pool, InOrder(tree, pool[at].keyTreeRoot));
         && |w.dicts[v.obj.value].keys| == |w.dicts[v.obj.value].vals| == |list|
         && RepMembers(strtod, w, w.dicts[v.obj.value], pool, tree, at + 1, ms, list, lo)
  }

  /** The first cells are the values of the first items. */
  ghost predicate RepItems(strtod: bytes -> Bits, w: World, cells: seq<Value>, pool: seq<Node>, tree: seq<KeyNode>, pos: nat, items: seq<Tree>, lo: Floor)
    requires |cells| <= |items|
    decreases items, 1
  {
    forall k :: 0 <= k < |cells| ==> RepItem(strtod, w, cells[k], pool, tree, pos, items, k, lo)
  }

  ghost predicate RepItem(strtod: bytes -> Bits, w: World, v: Value, pool: seq<Node>, tree: seq<KeyNode>, pos: nat, items: seq<Tree>, k: nat, lo: Floor)
    requires k < |items|
    decreases items, 0
  {
    Represents(strtod, w, v, pool, tree, ItemPos(pos, items, k), items[k], lo)
  }

  /** The first entries are the members the first chosen keys stand for. */
  ghost predicate RepMembers(strtod: bytes -> Bits, w: World, d: Dict, pool: seq<Node>, tree: seq<KeyNode>, pos: nat, ms: seq<Member>, list: seq<nat>, lo: Floor)
    requires |d.keys| == |d.vals| <= |list|
    decreases ms, 1
  {
    forall k :: 0 <= k < |d.keys| ==> RepMember(strtod, w, d.keys[k], d.vals[k], pool, tree, pos, ms, list[k], lo)
  }

  ghost predicate RepMember(strtod: bytes -> Bits, w: World, key: bytes, v: Value, pool: seq<Node>, tree: seq<KeyNode>, pos: nat, ms: seq<Member>, p: nat, lo: Floor)
    decreases ms, 0
  {
    && key == CStr(TextAt(pool, p))
    && var m := MemberIdx(pos, ms, p);
       m.Some? && (assert ms[m.value].val < ms[m.value]; Represents(strtod, w, v, pool, tree, p + 1, ms[m.value].val, lo))
  }

  /** The containers of `a` above the floor are the same in `b`. */
  ghost predicate SameAbove(a: World, b: World, lo: Floor) {
    && |a.dicts| <= |b.dicts| && |a.lists| <= |b.lists|
    && (forall o :: lo.dicts <= o < |a.dicts| ==> b.dicts[o] == a.dicts[o])
    && (forall l :: lo.lists <= l < |a.lists| ==> b.lists[l] == a.lists[l])
  }

  ghost predicate Below(a: Floor, b: Floor) { a.dicts <= b.dicts && a.lists <= b.lists }

  /** What happens below the floor does not matter, and the floor may be lowered. */
  lemma {:induction false} RepFrame(strtod: bytes -> Bits, a: World, b: World, v: Value, pool: seq<Node>, tree: seq<KeyNode>, at: nat, t: Tree, lo: Floor, lo2: Floor)
    requires Represents(strtod, a, v, pool, tree, at, t, lo) && SameAbove(a, b, lo) && Below(lo2, lo)
    ensures Represents(strtod, b, v, pool, tree, at, t, lo2)
    decreases t, 2
  {
    hide RepItem;
    hide RepMember;
    hide LeafValue;
    hide InOrder;
    hide Finals;
    match t {
      case Leaf(_, _) =>
      case Arr(_, items) =>
        var cells := a.lists[v.arr.value];
        forall k | 0 <= k < |cells| ensures RepItem(strtod, b, cells[k], pool, tree, at + 1, items, k, lo2) {
          ItemFrame(strtod, a, b, cells[k], pool, tree, at + 1, items, k, lo, lo2);
        }
      case Obj(_, ms) =>
        var d := a.dicts[v.obj.value];
        var list := Finals(pool, InOrder(tree, pool[at].keyTreeRoot));
        forall k | 0 <= k < |d.keys| ensures RepMember(strtod, b, d.keys[k], d.vals[k], pool, tree, at + 1, ms, list[k], lo2) {
          MemberFrame(strtod, a, b, d.keys[k], d.vals[k], pool, tree, at + 1, ms, list[k], lo, lo2);
        }
    }
  }

  lemma ItemFrame(strtod: bytes -> Bits, a: World, b: World, v: Value, pool: seq<Node>, tree: seq<KeyNode>, pos: nat, items: seq<Tree>, k: nat, lo: Floor, lo2: Floor)
    requires k < |items| && RepItem(strtod, a, v, pool, tree, pos, items, k, lo) && SameAbove(a, b, lo) && Below(lo2, lo)
    ensures RepItem(strtod, b, v, pool, tree, pos, items, k, lo2)
    decreases items, 0
  {
    hide Represents;
    hide SameAbove;
    RepFrame(strtod, a, b, v, pool, tree, ItemPos(pos, items, k), items[k], lo, lo2);
  }

  lemma MemberFrame(strtod: bytes -> Bits, a: World, b: World, key: bytes, v: Value, pool: seq<Node>, tree: seq<KeyNode>, pos: nat, ms: seq<Member>, p: nat, lo: Floor, lo2: Floor)
    requires RepMember(strtod, a, key, v, pool, tree, pos, ms, p, lo) && SameAbove(a, b, lo) && Below(lo2, lo)
    ensures RepMember(strtod, b, key, v, pool, tree, pos, ms, p, lo2)
    decreases ms, 0
  {
    hide Represents;
    hide SameAbove;
    hide TextAt;
    hide CStr;
    var m := MemberIdx(pos, ms, p);
    assert ms[m.value].val < ms[m.value];
    RepFrame(strtod, a, b, v, pool, tree, p + 1, ms[m.value].val, lo, lo2);
  }

  lemma MembersFrame(strtod: bytes -> Bits, a: World, b: World, d: Dict, pool: seq<Node>, tree: seq<KeyNode>, pos: nat, ms: seq<Member>, list: seq<nat>, lo: Floor, lo2: Floor)
    requires |d.keys| == |d.vals| <= |list| && RepMembers(strtod, a, d, pool, tree, pos, ms, list, lo) && SameAbove(a, b, lo) && Below(lo2, lo)
    ensures RepMembers(strtod, b, d, pool, tree, pos, ms, list, lo2)
  {
    hide RepMember;
    hide SameAbove;
    forall k | 0 <= k < |d.keys| ensures RepMember(strtod, b, d.keys[k], d.vals[k], pool, tree, pos, ms, list[k], lo2) {
      MemberFrame(strtod, a, b, d.keys[k], d.vals[k], pool, tree, pos, ms, list[k], lo, lo2);
    }
  }

  lemma ItemsFrame(strtod: bytes -> Bits, a: World, b: World, cells: seq<Value>, pool: seq<Node>, tree: seq<KeyNode>, pos: nat, items: seq<Tree>, lo: Floor, lo2: Floor)
    requires |cells| <= |items| && RepItems(strtod, a, cells, pool, tree, pos, items, lo) && SameAbove(a, b, lo) && Below(lo2, lo)
    ensures RepItems(strtod, b, cells, pool, tree, pos, items, lo2)
  {
    hide RepItem;
    hide SameAbove;
    forall k | 0 <= k < |cells| ensures RepItem(strtod, b, cells[k], pool, tree, pos, items, k, lo2) {
      ItemFrame(strtod, a, b, cells[k], pool, tree, pos, items, k, lo, lo2);
    }
  }

  function FloorOf(w: World): Floor { Floor(|w.dicts|, |w.lists|) }

  /** Everything there was is as it was. */
  ghost predicate Extends(a: World, b: World) { SameAbove(a, b, Floor(0, 0)) }

  /** The value is one of the world. */
  lemma RepInWorld(strtod: bytes -> Bits, w: World, v: Value, pool: seq<Node>, tree: seq<KeyNode>, at: nat, t: Tree, lo: Floor)
    requires Represents(strtod, w, v, pool, tree, at, t, lo)
    ensures InWorld(w, v)
  {
    hide RepItems;
    hide RepMembers;
    hide InOrder;
    hide Finals;
    hide KeyText;
  }

  // ---------------------------------------------------------------- the conversion

  /** `T_NUMBER` and the other leaves; the copy of at most 127 bytes is read by `strtod` or
      `strtoll`, longer numerals and integers out of range are kept as text. */
  method ConvertLeaf(strtod: bytes -> Bits, tok: Token) returns (v: Value)
    ensures v == LeafValue(strtod, tok)
    ensures (v == VBool(true) <==> tok.kind == TTrue) && (v == VBool(false) <==> tok.kind == TFalse)
    ensures v.VString? <==> tok.kind == TString
    ensures v == VNull <==> tok.kind !in {TNumber, TTrue, TFalse, TString}
    ensures v.VString? ==> v == VString(Some(if tok.esc then Unescaped(tok.raw) else tok.raw))
  {
    hide Unescaped;
    hide IntegerOf;
    match tok.kind {
      case TNumber =>
        var s := tok.raw;
        var isFloat := false;
        var i := 0;
        while i < |s|
          invariant 0 <= i <= |s| && !isFloat && !IsFloat(s[..i])
        {
          assert s[..i + 1] == s[..i] + [s[i]];
          if s[i] == 46 || s[i] == 101 || s[i] == 69 {
            isFloat := true;
            break;
          }
          i := i + 1;
        }
        assert isFloat ==> s[i] in s;
        assert !isFloat ==> s[..i] == s;
        if isFloat {
          return if |s| < BUFFER then VDouble(strtod(s)) else VBignum(Some(s));
        }
        if |s| < BUFFER {
          var n := IntegerOf(s);
          if -0x8000_0000_0000_0000 <= n < 0x8000_0000_0000_0000 {
            return VInt(n);
          }
        }
        return VBignum(Some(s));
      case TTrue => return VBool(true);
      case TFalse => return VBool(false);
      case TString => return VString(Some(KeyText(tok)));
      case TError => return VNull;
      case TEof => return VNull;
      case TColon => return VNull;
      case TComma => return VNull;
      case TBraceOpen => return VNull;
      case TBraceClose => return VNull;
      case TBracketOpen => return VNull;
      case TBracketClose => return VNull;
      case TNull => return VNull;
    }
  }

  /** `ast_to_value`. */
  method AstToValue(h: Heap, strtod: bytes -> Bits, pool: seq<Node>, trees: KeyTreePool, at: nat, ghost t: Tree) returns (v: Value)
    requires h.Valid() && WorldOk(h.World()) && Forward(trees.nodes) && At(pool, at, t) && Convertible(pool, trees.nodes, at, t)
    modifies h
    ensures h.Valid() && WorldOk(h.World()) && Extends(old(h.World()), h.World())
    ensures Represents(strtod, h.World(), v, pool, trees.nodes, at, t, FloorOf(old(h.World())))
    decreases t, 1
  {
    hide StateOk;
    hide WorldOk;
    hide ItemsAt;
    hide MembersAt;
    hide LeafValue;
    hide ListOk;
    hide ItemsConvertible;
    hide MembersConvertible;
    hide RepItems;
    hide RepMembers;
    hide InOrder;
    hide Forward;
    var kind := pool[at].kind;
    if kind == AstObject {
      v := ConvertObject(h, strtod, pool, trees, at, t);
    } else if kind == AstArray {
      v := ConvertArray(h, strtod, pool, trees, at, t);
    } else if kind == AstLeaf {
      v := ConvertLeaf(strtod, pool[at].tok);
    } else {
      v := VNull;
    }
  }

  lemma ArrayParts(pool: seq<Node>, tree: seq<KeyNode>, at: nat, t: Tree)
    requires t.Arr? && At(pool, at, t) && Convertible(pool, tree, at, t)
    ensures at < |pool| && ItemsAt(pool, at + 1, t.items) && ItemsConvertible(pool, tree, at + 1, t.items)
    ensures pool[at].firstChild == if t.items == [] then -1 else at + 1
  {
    hide ItemsAt;
    hide ItemsConvertible;
  }

  lemma NewArrExtends(w: World)
    requires WorldOk(w)
    ensures var u := StepWorld(w, NewArr);
            Extends(w, u) && |u.lists| == |w.lists| + 1 && |u.dicts| == |w.dicts| && u.lists[|w.lists|] == []
    ensures WorldOk(StepWorld(w, NewArr))
  {
    StepKeepsWorld(w, NewArr);
    hide WorldOk;
  }

  /** One more cell at the end of list `a`. */
  lemma CellAppended(w: World, a: nat, v: Value)
    requires WorldOk(w) && a < |w.lists| && InWorld(w, v)
    ensures var op := SetItem(a, |w.lists[a]|, v);
            OpOk(w, op) && WorldOk(StepWorld(w, op)) && StepWorld(w, op) == w.(lists := w.lists[a := w.lists[a] + [v]])
  {
    var op := SetItem(a, |w.lists[a]|, v);
    StepKeepsWorld(w, op);
    hide WorldOk;
    hide InWorld;
    assert w.lists[a] + Undefined(0) + [v] == w.lists[a] + [v];
  }

  /** The list so far holds the values of the first items. */
  ghost predicate Filling(strtod: bytes -> Bits, w0: World, w: World, a: nat, pool: seq<Node>, tree: seq<KeyNode>, pos: nat, items: seq<Tree>, k: nat) {
    && WorldOk(w0) && WorldOk(w) && a == |w0.lists| < |w.lists| && k <= |items| && |w.lists[a]| == k
    && Extends(w0, w)
    && RepItems(strtod, w, w.lists[a], pool, tree, pos, items, Floor(|w0.dicts|, a + 1))
  }

  lemma FillingStart(strtod: bytes -> Bits, w0: World, pool: seq<Node>, tree: seq<KeyNode>, pos: nat, items: seq<Tree>)
    requires WorldOk(w0)
    ensures Filling(strtod, w0, StepWorld(w0, NewArr), |w0.lists|, pool, tree, pos, items, 0)
  {
    hide WorldOk;
    hide Extends;
    hide StepWorld;
    NewArrExtends(w0);
  }

  lemma FillingNext(strtod: bytes -> Bits, w0: World, w: World, w2: World, a: nat, pool: seq<Node>, tree: seq<KeyNode>, pos: nat, items: seq<Tree>, k: nat, v: Value)
    requires Filling(strtod, w0, w, a, pool, tree, pos, items, k) && k < |items| && WorldOk(w2) && Extends(w, w2)
    requires Represents(strtod, w2, v, pool, tree, ItemPos(pos, items, k), items[k], FloorOf(w))
    ensures a < |w2.lists| && w2.lists[a] == w.lists[a] && OpOk(w2, SetItem(a, k, v)) && WorldOk(StepWorld(w2, SetItem(a, k, v)))
    ensures Filling(strtod, w0, StepWorld(w2, SetItem(a, k, v)), a, pool, tree, pos, items, k + 1)
  {
    hide WorldOk;
    hide StepWorld;
    hide OpOk;
    hide RepItems;
    hide Represents;
    hide RepItem;
    RepInWorld(strtod, w2, v, pool, tree, ItemPos(pos, items, k), items[k], FloorOf(w));
    CellAppended(w2, a, v);
    var w3 := w2.(lists := w2.lists[a := w2.lists[a] + [v]]);
    var lo := Floor(|w0.dicts|, a + 1);
    ExtendsAbove(w, w2, lo);
    AboveList(w2, a, v, |w0.dicts|);
    FloorAbove(w0, w, a);
    ItemsFrame(strtod, w, w2, w.lists[a], pool, tree, pos, items, lo, lo);
    ItemsFrame(strtod, w2, w3, w.lists[a], pool, tree, pos, items, lo, lo);
    RepFrame(strtod, w2, w2, v, pool, tree, ItemPos(pos, items, k), items[k], FloorOf(w), lo);
    RepFrame(strtod, w2, w3, v, pool, tree, ItemPos(pos, items, k), items[k], lo, lo);
    ItemsMore(strtod, w3, w.lists[a], v, pool, tree, pos, items, k, lo);
    ExtendsSet(w0, w, w2, a, v);
  }

  lemma FloorAbove(w0: World, w: World, a: nat)
    requires a == |w0.lists| < |w.lists| && Extends(w0, w)
    ensures Below(Floor(|w0.dicts|, a + 1), FloorOf(w))
    ensures forall lo: Floor :: SameAbove(w, w, lo)
  {
  }

  lemma ExtendsAbove(a: World, b: World, lo: Floor)
    requires Extends(a, b)
    ensures SameAbove(a, b, lo) && SameAbove(b, b, lo)
    ensures forall lo2: Floor :: SameAbove(b, b, lo2)
  {
  }

  lemma AboveList(w: World, a: nat, v: Value, d: nat)
    requires a < |w.lists|
    ensures SameAbove(w, w.(lists := w.lists[a := w.lists[a] + [v]]), Floor(d, a + 1))
  {
  }

  lemma ExtendsSet(w0: World, w: World, w2: World, a: nat, v: Value)
    requires Extends(w0, w) && Extends(w, w2) && a == |w0.lists| < |w.lists|
    ensures Extends(w0, w2.(lists := w2.lists[a := w2.lists[a] + [v]])) && w2.lists[a] == w.lists[a]
  {
  }

  lemma ItemsMore(strtod: bytes -> Bits, w: World, cells: seq<Value>, v: Value, pool: seq<Node>, tree: seq<KeyNode>, pos: nat, items: seq<Tree>, k: nat, lo: Floor)
    requires |cells| == k < |items| && RepItems(strtod, w, cells, pool, tree, pos, items, lo)
    requires Represents(strtod, w, v, pool, tree, ItemPos(pos, items, k), items[k], lo)
    ensures RepItems(strtod, w, cells + [v], pool, tree, pos, items, lo)
  {
    hide Represents;
    var more := cells + [v];
    forall i | 0 <= i < |more| ensures RepItem(strtod, w, more[i], pool, tree, pos, items, i, lo) {
      if i < k {
        assert more[i] == cells[i];
      }
    }
  }

  lemma FillingDone(strtod: bytes -> Bits, w0: World, w: World, a: nat, pool: seq<Node>, tree: seq<KeyNode>, at: nat, t: Tree)
    requires t.Arr? && Filling(strtod, w0, w, a, pool, tree, at + 1, t.items, |t.items|)
    ensures Extends(w0, w) && WorldOk(w) && Represents(strtod, w, VArr(Some(a)), pool, tree, at, t, FloorOf(w0))
  {
    hide WorldOk;
    hide RepItems;
    hide Extends;
    ItemsFrame(strtod, w, w, w.lists[a], pool, tree, at + 1, t.items, Floor(|w0.dicts|, a + 1), FloorOf(w0));
  }

  lemma ItemConvertibleAt(pool: seq<Node>, tree: seq<KeyNode>, pos: nat, items: seq<Tree>, k: nat)
    requires ItemsConvertible(pool, tree, pos, items) && k < |items|
    ensures Convertible(pool, tree, ItemPos(pos, items, k), items[k])
  {
    hide Convertible;
    assert ItemConvertible(pool, tree, pos, items, k);
  }

  lemma FillingMeans(strtod: bytes -> Bits, w0: World, w: World, a: nat, pool: seq<Node>, tree: seq<KeyNode>, pos: nat, items: seq<Tree>, k: nat)
    requires Filling(strtod, w0, w, a, pool, tree, pos, items, k)
    ensures WorldOk(w) && k <= |items|
  {
    hide WorldOk;
    hide RepItems;
    hide Extends;
  }

  method ConvertArray(h: Heap, strtod: bytes -> Bits, pool: seq<Node>, trees: KeyTreePool, at: nat, ghost t: Tree) returns (v: Value)
    requires h.Valid() && WorldOk(h.World()) && Forward(trees.nodes) && At(pool, at, t) && Convertible(pool, trees.nodes, at, t) && t.Arr?
    modifies h
    ensures h.Valid() && WorldOk(h.World()) && Extends(old(h.World()), h.World())
    ensures Represents(strtod, h.World(), v, pool, trees.nodes, at, t, FloorOf(old(h.World())))
    decreases t, 0
  {
    hide StateOk;
    hide WorldOk;
    hide At;
    hide ItemsAt;
    hide Convertible;
    hide ItemsConvertible;
    hide Represents;
    hide Filling;
    hide Extends;
    hide StepWorld;
    hide OpOk;
    hide ItemPos;
    hide Forward;
    ghost var w0 := h.World();
    ghost var tree := trees.nodes;
    ghost var items := t.items;
    ArrayParts(pool, tree, at, t);
    NewArrOk(w0);
    var a := h.ArrNew();
    FillingStart(strtod, w0, pool, tree, at + 1, items);
    FirstItem(at + 1, items);
    var child := pool[at].firstChild;
    var i := 0;
    while child != -1
      invariant 0 <= i <= |items| && h.Valid() && trees.nodes == tree
      invariant child == if i == |items| then -1 else ItemPos(at + 1, items, i)
      invariant Filling(strtod, w0, h.World(), a, pool, tree, at + 1, items, i)
      decreases |items| - i
    {
      ghost var w := h.World();
      FillingMeans(strtod, w0, w, a, pool, tree, at + 1, items, i);
      ItemAt(pool, at + 1, items, i);
      ItemConvertibleAt(pool, tree, at + 1, items, i);
      assert items[i] < t;
      var x := AstToValue(h, strtod, pool, trees, child, items[i]);
      FillingNext(strtod, w0, w, h.World(), a, pool, tree, at + 1, items, i, x);
      h.ArrSet(a, i, x);
      child := pool[child].nextSibling;
      i := i + 1;
    }
    FillingDone(strtod, w0, h.World(), a, pool, tree, at, t);
    v := VArr(Some(a));
  }

  lemma NewArrOk(w: World)
    ensures OpOk(w, NewArr) && OpOk(w, NewObj)
  {
  }

  lemma FirstItem(pos: nat, items: seq<Tree>)
    ensures ItemPos(pos, items, 0) == pos
  {
  }

  // ---------------------------------------------------------------- objects

  /** The dictionary so far holds, of each text among the first sorted keys, the last. */
  ghost predicate Setting(strtod: bytes -> Bits, w0: World, w: World, o: nat, pool: seq<Node>, tree: seq<KeyNode>, pos: nat, ms: seq<Member>, list: seq<nat>, k: nat) {
    && WorldOk(w0) && WorldOk(w) && o == |w0.dicts| < |w.dicts| && k <= |list|
    && |w.dicts[o].keys| == |w.dicts[o].vals| == |Finals(pool, list[..k])|
    && Extends(w0, w)
    && RepMembers(strtod, w, w.dicts[o], pool, tree, pos, ms, Finals(pool, list[..k]), Floor(o + 1, |w0.lists|))
  }

  lemma SettingStart(strtod: bytes -> Bits, w0: World, pool: seq<Node>, tree: seq<KeyNode>, pos: nat, ms: seq<Member>, list: seq<nat>)
    requires WorldOk(w0) && OpOk(w0, NewObj)
    ensures Setting(strtod, w0, StepWorld(w0, NewObj), |w0.dicts|, pool, tree, pos, ms, list, 0)
  {
    StepKeepsWorld(w0, NewObj);
    hide WorldOk;
    assert list[..0] == [];
  }

  lemma SettingMeans(strtod: bytes -> Bits, w0: World, w: World, o: nat, pool: seq<Node>, tree: seq<KeyNode>, pos: nat, ms: seq<Member>, list: seq<nat>, k: nat)
    requires Setting(strtod, w0, w, o, pool, tree, pos, ms, list, k)
    ensures WorldOk(w) && k <= |list|
  {
    hide WorldOk;
    hide RepMembers;
    hide Extends;
    hide Finals;
  }

  lemma EntryIs(strtod: bytes -> Bits, w: World, d: Dict, pool: seq<Node>, tree: seq<KeyNode>, pos: nat, ms: seq<Member>, list: seq<nat>, lo: Floor, i: nat)
    requires |d.keys| == |d.vals| == |list| && RepMembers(strtod, w, d, pool, tree, pos, ms, list, lo) && i < |list|
    ensures d.keys[i] == CStr(TextAt(pool, list[i]))
  {
    hide Represents;
    hide TextAt;
    hide CStr;
    hide MemberIdx;
    assert RepMember(strtod, w, d.keys[i], d.vals[i], pool, tree, pos, ms, list[i], lo);
  }

  /** A key whose text comes after those already set is new. */
  lemma KeyIsNew(strtod: bytes -> Bits, w: World, d: Dict, pool: seq<Node>, tree: seq<KeyNode>, pos: nat, ms: seq<Member>, list: seq<nat>, p: nat, lo: Floor)
    requires |d.keys| == |d.vals| == |list| && RepMembers(strtod, w, d, pool, tree, pos, ms, list, lo)
    requires ByText(pool, list + [p]) && NulFree(pool, list + [p])
    ensures CStr(TextAt(pool, p)) !in d.keys
  {
    hide RepMembers;
    hide TextAt;
    hide CStr;
    hide Less;
    var all := list + [p];
    assert all[|list|] == p;
    assert p in all;
    forall i | 0 <= i < |list| ensures d.keys[i] != CStr(TextAt(pool, p)) {
      EntryIs(strtod, w, d, pool, tree, pos, ms, list, lo, i);
      assert all[i] == list[i];
      assert list[i] in all;
      assert Less(TextAt(pool, all[i]), TextAt(pool, all[|list|]));
      LessIrreflexive(TextAt(pool, p));
    }
  }

  /** What setting the key makes of the dictionary. */
  function Entered(d: Dict, key: bytes, v: Value, again: bool): Dict
    requires |d.keys| == |d.vals| && (again ==> d.keys != [])
  {
    if again then d.(vals := d.vals[|d.vals| - 1 := v]) else Dict(d.keys + [key], d.vals + [v])
  }

  lemma KeyEntered(w: World, o: nat, key: bytes, v: Value, again: bool)
    requires WorldOk(w) && o < |w.dicts| && InWorld(w, v) && |w.dicts[o].keys| == |w.dicts[o].vals|
    requires if again then w.dicts[o].keys != [] && w.dicts[o].keys[|w.dicts[o].keys| - 1] == key else key !in w.dicts[o].keys
    ensures var op := SetKey(o, key, v);
            && OpOk(w, op) && WorldOk(StepWorld(w, op))
            && StepWorld(w, op) == w.(dicts := w.dicts[o := Entered(w.dicts[o], key, v, again)])
  {
    hide IndexOf;
    hide InWorld;
    DictIsOk(w, o);
    var op := SetKey(o, key, v);
    StepKeepsWorld(w, op);
    if again {
      IndexUnique(w.dicts[o].keys, key, |w.dicts[o].keys| - 1);
    }
  }

  /** One more entry, in the place of the last one if that has the same text. */
  lemma MembersMore(strtod: bytes -> Bits, w: World, d: Dict, key: bytes, v: Value, again: bool, pool: seq<Node>, tree: seq<KeyNode>, pos: nat, ms: seq<Member>, list: seq<nat>, p: nat, lo: Floor)
    requires |d.keys| == |d.vals| == |list| && RepMembers(strtod, w, d, pool, tree, pos, ms, list, lo)
    requires RepMember(strtod, w, key, v, pool, tree, pos, ms, p, lo)
    requires again ==> d.keys != [] && d.keys[|d.keys| - 1] == key
    ensures var more := if again then list[..|list| - 1] + [p] else list + [p];
            var e := Entered(d, key, v, again);
            |e.keys| == |e.vals| == |more| && RepMembers(strtod, w, e, pool, tree, pos, ms, more, lo)
  {
    hide RepMember;
    var e := Entered(d, key, v, again);
    var more := if again then list[..|list| - 1] + [p] else list + [p];
    forall i | 0 <= i < |e.keys| ensures RepMember(strtod, w, e.keys[i], e.vals[i], pool, tree, pos, ms, more[i], lo) {
      if i < |more| - 1 {
        assert e.keys[i] == d.keys[i] && e.vals[i] == d.vals[i] && more[i] == list[i];
      } else {
        assert e.keys[i] == key && e.vals[i] == v && more[i] == p;
      }
    }
  }

  lemma DictsAbove(w: World, o: nat, d: Dict, l: nat)
    requires o < |w.dicts|
    ensures SameAbove(w, w.(dicts := w.dicts[o := d]), Floor(o + 1, l))
  {
  }

  lemma ExtendsDict(w0: World, w: World, w2: World, o: nat, d: Dict)
    requires Extends(w0, w) && Extends(w, w2) && o == |w0.dicts| < |w.dicts|
    ensures Extends(w0, w2.(dicts := w2.dicts[o := d])) && w2.dicts[o] == w.dicts[o]
    ensures Below(Floor(o + 1, |w0.lists|), FloorOf(w))
  {
  }

  /** Whether the next sorted key has the text of the one before. */
  predicate Again(pool: seq<Node>, list: seq<nat>, k: nat)
    requires k < |list|
  {
    k > 0 && TextAt(pool, list[k - 1]) == TextAt(pool, list[k])
  }

  lemma NextFinals(pool: seq<Node>, list: seq<nat>, k: nat)
    requires k < |list|
    ensures var r := Finals(pool, list[..k]);
            && (Again(pool, list, k) ==> r != [] && TextAt(pool, r[|r| - 1]) == TextAt(pool, list[k]))
            && Finals(pool, list[..k + 1]) == if Again(pool, list, k) then r[..|r| - 1] + [list[k]] else r + [list[k]]
  {
    hide TextAt;
    hide Finals;
    NoFinals(pool);
    FinalsStep(pool, list[..k + 1]);
    assert list[..k + 1][..k] == list[..k];
  }

  lemma NextOrdered(pool: seq<Node>, list: seq<nat>, k: nat)
    requires k <= |list| && Strict(pool, list) && NulFree(pool, list)
    ensures ByText(pool, Finals(pool, list[..k])) && NulFree(pool, Finals(pool, list[..k]))
  {
    hide Precedes;
    hide TextAt;
    hide Less;
    hide Finals;
    assert Strict(pool, list[..k]);
    FinalsAre(pool, list[..k]);
    assert forall j :: j in list[..k] ==> j in list;
  }

  lemma SettingNext(strtod: bytes -> Bits, w0: World, w: World, w2: World, o: nat, pool: seq<Node>, tree: seq<KeyNode>, pos: nat, ms: seq<Member>, list: seq<nat>, k: nat, m: nat, v: Value)
    requires Setting(strtod, w0, w, o, pool, tree, pos, ms, list, k) && k < |list| && WorldOk(w2) && Extends(w, w2)
    requires Strict(pool, list) && NulFree(pool, list)
    requires MemberIdx(pos, ms, list[k]) == Some(m) && m < |ms|
    requires Represents(strtod, w2, v, pool, tree, list[k] + 1, ms[m].val, FloorOf(w))
    ensures var op := SetKey(o, CStr(TextAt(pool, list[k])), v);
            && OpOk(w2, op) && WorldOk(StepWorld(w2, op))
            && Setting(strtod, w0, StepWorld(w2, op), o, pool, tree, pos, ms, list, k + 1)
  {
    hide WorldOk;
    hide StepWorld;
    hide OpOk;
    hide RepMembers;
    hide Represents;
    hide SameAbove;
    hide Strict;
    hide NulFree;
    hide ByText;
    hide TextAt;
    hide CStr;
    hide MemberIdx;
    hide Finals;
    hide Again;
    hide Entered;
    var key := CStr(TextAt(pool, list[k]));
    var again := Again(pool, list, k);
    var r := Finals(pool, list[..k]);
    var d := w.dicts[o];
    var lo := Floor(o + 1, |w0.lists|);
    GrownDicts(w, w2);
    NextFinals(pool, list, k);
    NextOrdered(pool, list, k + 1);
    if again {
      EntryIs(strtod, w, d, pool, tree, pos, ms, r, lo, |r| - 1);
    } else {
      KeyIsNew(strtod, w, d, pool, tree, pos, ms, r, list[k], lo);
    }
    var e := Entered(d, key, v, again);
    var w3 := w2.(dicts := w2.dicts[o := e]);
    RepInWorld(strtod, w2, v, pool, tree, list[k] + 1, ms[m].val, FloorOf(w));
    ExtendsDict(w0, w, w2, o, e);
    KeyEntered(w2, o, key, v, again);
    ExtendsAbove(w, w2, lo);
    DictsAbove(w2, o, e, |w0.lists|);
    MembersFrame(strtod, w, w2, d, pool, tree, pos, ms, r, lo, lo);
    MembersFrame(strtod, w2, w3, d, pool, tree, pos, ms, r, lo, lo);
    RepFrame(strtod, w2, w2, v, pool, tree, list[k] + 1, ms[m].val, FloorOf(w), lo);
    RepFrame(strtod, w2, w3, v, pool, tree, list[k] + 1, ms[m].val, lo, lo);
    MembersMore(strtod, w3, d, key, v, again, pool, tree, pos, ms, r, list[k], lo);
  }

  lemma GrownDicts(a: World, b: World)
    requires Extends(a, b)
    ensures |a.dicts| <= |b.dicts| && |a.lists| <= |b.lists|
  {
  }

  lemma SettingDone(strtod: bytes -> Bits, w0: World, w: World, o: nat, pool: seq<Node>, tree: seq<KeyNode>, at: nat, t: Tree, list: seq<nat>)
    requires t.Obj? && at < |pool| && list == InOrder(tree, pool[at].keyTreeRoot)
    requires Setting(strtod, w0, w, o, pool, tree, at + 1, t.members, list, |list|)
    ensures Extends(w0, w) && WorldOk(w) && Represents(strtod, w, VObj(Some(o)), pool, tree, at, t, FloorOf(w0))
  {
    hide WorldOk;
    hide RepMembers;
    hide Extends;
    hide InOrder;
    hide Finals;
    assert list[..|list|] == list;
    MembersFrame(strtod, w, w, w.dicts[o], pool, tree, at + 1, t.members, Finals(pool, list), Floor(o + 1, |w0.lists|), FloorOf(w0));
  }

  lemma ObjectParts(pool: seq<Node>, tree: seq<KeyNode>, at: nat, t: Tree)
    requires t.Obj? && At(pool, at, t) && Convertible(pool, tree, at, t)
    ensures MembersAt(pool, at + 1, t.members) && MembersConvertible(pool, tree, at, at + 1, t.members)
    ensures at < |pool| && -1 <= pool[at].keyTreeRoot < |tree|
    ensures var list := InOrder(tree, pool[at].keyTreeRoot);
            && |list| <= MAX_OBJ_KEYS && Strict(pool, list) && NulFree(pool, list)
            && forall p :: p in list ==> KeyOk(pool, at, at + 1, t.members, p)
  {
    hide MembersAt;
    hide MembersConvertible;
    hide InOrder;
    hide Strict;
    hide TextAt;
    hide MemberIdx;
    hide StoredKey;
  }

  /** The member behind a sorted key: its key node, and its value at the next index. */
  lemma MemberParts(pool: seq<Node>, tree: seq<KeyNode>, parent: nat, pos: nat, ms: seq<Member>, p: nat) returns (m: nat)
    requires MembersAt(pool, pos, ms) && MembersConvertible(pool, tree, parent, pos, ms) && KeyOk(pool, parent, pos, ms, p)
    ensures m < |ms| && MemberIdx(pos, ms, p) == Some(m)
    ensures p < |pool| && pool[p].nextSibling == p + 1 && TextAt(pool, p) == KeyText(pool[p].tok)
    ensures At(pool, p + 1, ms[m].val) && Convertible(pool, tree, p + 1, ms[m].val)
  {
    hide At;
    hide Convertible;
    hide KeyText;
    m := MemberIdx(pos, ms, p).value;
    MemberAt(pool, pos, ms, m);
    assert MemberConvertible(pool, tree, pos, ms, m);
  }

  method ConvertObject(h: Heap, strtod: bytes -> Bits, pool: seq<Node>, trees: KeyTreePool, at: nat, ghost t: Tree) returns (v: Value)
    requires h.Valid() && WorldOk(h.World()) && Forward(trees.nodes) && At(pool, at, t) && Convertible(pool, trees.nodes, at, t) && t.Obj?
    modifies h
    ensures h.Valid() && WorldOk(h.World()) && Extends(old(h.World()), h.World())
    ensures Represents(strtod, h.World(), v, pool, trees.nodes, at, t, FloorOf(old(h.World())))
    decreases t, 0
  {
    hide StateOk;
    hide WorldOk;
    hide At;
    hide MembersAt;
    hide Convertible;
    hide MembersConvertible;
    hide Represents;
    hide Setting;
    hide Extends;
    hide StepWorld;
    hide OpOk;
    hide KeyOk;
    hide Strict;
    hide NulFree;
    hide Finals;
    hide InOrder;
    hide Forward;
    hide TextAt;
    hide KeyText;
    hide CStr;
    hide MemberIdx;
    ghost var w0 := h.World();
    ghost var tree := trees.nodes;
    ghost var ms := t.members;
    ObjectParts(pool, tree, at, t);
    ghost var list := InOrder(tree, pool[at].keyTreeRoot);
    NewArrOk(w0);
    SettingStart(strtod, w0, pool, tree, at + 1, ms, list);
    var o := h.ObjNew();
    var sorted := new nat[MAX_OBJ_KEYS];
    var count := trees.GetOrdered(pool[at].keyTreeRoot, sorted);
    var i := 0;
    while i < count
      invariant 0 <= i <= count == |list| && h.Valid() && trees.nodes == tree && sorted[..count] == list
      invariant Setting(strtod, w0, h.World(), o, pool, tree, at + 1, ms, list, i)
      decreases count - i
    {
      ghost var w := h.World();
      SettingMeans(strtod, w0, w, o, pool, tree, at + 1, ms, list, i);
      var keyIdx := sorted[i];
      assert keyIdx == sorted[..count][i] && keyIdx in list;
      ghost var m := MemberParts(pool, tree, at, at + 1, ms, keyIdx);
      var valIdx := pool[keyIdx].nextSibling;
      if valIdx != -1 {
        assert ms[m].val < ms[m];
        var x := AstToValue(h, strtod, pool, trees, valIdx, ms[m].val);
        SettingNext(strtod, w0, w, h.World(), o, pool, tree, at + 1, ms, list, i, m, x);
        h.ObjSet(o, CStr(KeyText(pool[keyIdx].tok)), x);
      }
      i := i + 1;
    }
    SettingDone(strtod, w0, h.World(), o, pool, tree, at, t, list);
    v := VObj(Some(o));
  }
}
