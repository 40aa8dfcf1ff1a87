/** What conversion makes of every parsed text (`ast_to_value`, src/parser/parser.c): objects
    with the same key texts get the same shape, whatever the order and the repetitions of
    their keys in the source. */
module Canonical {
  import opened Bytes
  import opened Ast
  import opened Keywords
  import opened Lexing
  import opened Grammar
  import opened KeyTree
  import opened ScopedKeys
  import opened Building
  import opened PoolShape
  import opened PoolBuilt
  import opened KeyForest
  import opened KeyOrder
  import opened Parsing
  import opened Frontend
  import opened Prescan
  import opened PoolSizes
  import opened Meaning
  import opened Pipeline
  import opened Values
  import opened Shapes
  import opened Heap
  import opened Convert

  // ---------------------------------------------------------------- positions

  /** Own keys are those of the members that were stored. */
  lemma {:induction false} OwnKeysAre(parent: nat, pos: nat, ms: seq<Member>, p: nat)
    ensures p in OwnKeys(parent, pos, ms) <==> MemberIdx(pos, ms, p).Some? && StoredKey(parent, ms[MemberIdx(pos, ms, p).value])
    ensures MemberIdx(pos, ms, p).Some? ==> pos <= p
    decreases |ms|
  {
    hide StoredKey;
    hide Len;
    if ms != [] {
      var next := pos + 1 + Len(ms[0].val);
      OwnKeysAre(parent, next, ms[1..], p);
    }
  }

  lemma {:induction false} SortedItem(pool: seq<Node>, tree: seq<KeyNode>, pos: nat, items: seq<Tree>, k: nat)
    requires SortedItems(pool, tree, pos, items) && k < |items|
    ensures Sorted(pool, tree, ItemPos(pos, items, k), items[k])
    decreases k
  {
    hide Sorted;
    hide Len;
    if k > 0 {
      SortedItem(pool, tree, pos + Len(items[0]), items[1..], k - 1);
    }
  }

  lemma {:induction false} SortedMember(pool: seq<Node>, tree: seq<KeyNode>, pos: nat, ms: seq<Member>, k: nat)
    requires SortedMembers(pool, tree, pos, ms) && k < |ms|
    ensures Sorted(pool, tree, KeyPos(pos, ms, k) + 1, ms[k].val)
    decreases k
  {
    hide Sorted;
    hide Len;
    assert ms[0].val < ms[0];
    if k > 0 {
      SortedMember(pool, tree, pos + 1 + Len(ms[0].val), ms[1..], k - 1);
    }
  }

  lemma StrictCount(pool: seq<Node>, list: seq<nat>, keys: set<nat>)
    requires Strict(pool, list) && forall j: nat :: j in list <==> j in keys
    ensures |list| == |keys|
  {
    hide Precedes;
    forall i, k | 0 <= i < k < |list| ensures list[i] != list[k] {
      assert Precedes(pool, list[i], list[k]);
      PrecedesIrreflexive(pool, list[k]);
    }
    DistinctCount(list, keys);
  }

  lemma {:induction false} DistinctCount(list: seq<nat>, keys: set<nat>)
    requires (forall i, k :: 0 <= i < k < |list| ==> list[i] != list[k]) && forall j: nat :: j in list <==> j in keys
    ensures |keys| == |list|
    decreases |list|
  {
    if list == [] {
      assert keys == {};
    } else {
      var rest := list[1..];
      assert list == [list[0]] + rest;
      DistinctCount(rest, keys - {list[0]});
    }
  }

  // ---------------------------------------------------------------- every parsed value can be converted

  /** The stored keys have no NUL, and no object has more of them than the conversion has
      room for. */
  ghost predicate Tame(at: nat, t: Tree)
    decreases t
  {
    match t
    case Leaf(_, _) => true
    case Arr(_, items) => TameItems(at + 1, items)
    case Obj(_, ms) => |OwnKeys(at, at + 1, ms)| <= MAX_OBJ_KEYS && TameMembers(at, at + 1, ms)
  }

  ghost predicate TameItems(pos: nat, items: seq<Tree>)
    decreases items
  {
    items == [] || (Tame(pos, items[0]) && TameItems(pos + Len(items[0]), items[1..]))
  }

  ghost predicate TameMembers(parent: nat, pos: nat, ms: seq<Member>)
    decreases ms
  {
    ms == [] ||
    (assert ms[0].val < ms[0];
     (StoredKey(parent, ms[0]) ==> 0 !in KeyText(ms[0].key) && Tame(pos + 1, ms[0].val))
     && TameMembers(parent, pos + 1 + Len(ms[0].val), ms[1..]))
  }

  lemma {:induction false} TameItem(pos: nat, items: seq<Tree>, k: nat)
    requires TameItems(pos, items) && k < |items|
    ensures Tame(ItemPos(pos, items, k), items[k])
    decreases k
  {
    hide Tame;
    hide Len;
    if k > 0 {
      TameItem(pos + Len(items[0]), items[1..], k - 1);
    }
  }

  lemma {:induction false} TameMember(parent: nat, pos: nat, ms: seq<Member>, k: nat)
    requires TameMembers(parent, pos, ms) && k < |ms| && StoredKey(parent, ms[k])
    ensures 0 !in KeyText(ms[k].key) && Tame(KeyPos(pos, ms, k) + 1, ms[k].val)
    decreases k
  {
    hide Tame;
    hide Len;
    hide KeyText;
    hide StoredKey;
    assert ms[0].val < ms[0];
    if k > 0 {
      TameMember(parent, pos + 1 + Len(ms[0].val), ms[1..], k - 1);
    }
  }

  lemma ListedKeyOk(pool: seq<Node>, at: nat, ms: seq<Member>, p: nat)
    requires MembersAt(pool, at + 1, ms) && TameMembers(at, at + 1, ms) && p in OwnKeys(at, at + 1, ms)
    ensures KeyOk(pool, at, at + 1, ms, p)
    ensures MemberIdx(at + 1, ms, p).Some? && TextAt(pool, p) == KeyText(ms[MemberIdx(at + 1, ms, p).value].key)
  {
    hide OwnKeys;
    hide MembersAt;
    hide TameMembers;
    hide MemberIdx;
    hide StoredKey;
    hide KeyText;
    hide At;
    hide Tame;
    OwnKeysAre(at, at + 1, ms, p);
    var m := MemberIdx(at + 1, ms, p).value;
    Convert.MemberAt(pool, at + 1, ms, m);
    TameMember(at, at + 1, ms, m);
    TextIs(pool, p);
  }

  lemma ObjectListOk(pool: seq<Node>, tree: seq<KeyNode>, at: nat, ms: seq<Member>)
    requires SortedObject(pool, tree, at, ms) && Rooted(pool, tree) && MembersAt(pool, at + 1, ms)
    requires |OwnKeys(at, at + 1, ms)| <= MAX_OBJ_KEYS && TameMembers(at, at + 1, ms)
    ensures ListOk(pool, tree, at, ms)
  {
    hide InOrder;
    hide Strict;
    hide OwnKeys;
    hide MembersAt;
    hide TameMembers;
    hide MemberIdx;
    hide StoredKey;
    hide TextAt;
    hide Forward;
    var list := InOrder(tree, pool[at].keyTreeRoot);
    forall p | p in list ensures KeyOk(pool, at, at + 1, ms, p) {
      ListedKeyOk(pool, at, ms, p);
    }
    StrictCount(pool, list, OwnKeys(at, at + 1, ms));
  }

  /** A pool whose trees are sorted can be converted, whatever keys are repeated. */
  lemma {:induction false} TreeConvertible(pool: seq<Node>, tree: seq<KeyNode>, at: nat, t: Tree)
    requires Sane(t) && Tame(at, t) && At(pool, at, t) && Sorted(pool, tree, at, t) && Rooted(pool, tree)
    ensures Convertible(pool, tree, at, t)
    decreases t, 1
  {
    hide Rooted;
    hide ItemsAt;
    hide MembersAt;
    hide SortedItems;
    hide SortedMembers;
    hide SortedObject;
    hide OwnKeys;
    hide TameItems;
    hide TameMembers;
    hide ListOk;
    hide ItemsConvertible;
    hide MembersConvertible;
    hide SaneMember;
    hide WfToken;
    match t {
      case Leaf(_, _) =>
      case Arr(_, items) => ItemsCan(pool, tree, at + 1, items);
      case Obj(_, ms) =>
        ObjectListOk(pool, tree, at, ms);
        MembersCan(pool, tree, at, at + 1, ms);
    }
  }

  lemma ItemsCan(pool: seq<Node>, tree: seq<KeyNode>, pos: nat, items: seq<Tree>)
    requires (forall i :: 0 <= i < |items| ==> Sane(items[i])) && TameItems(pos, items) && Rooted(pool, tree)
    requires ItemsAt(pool, pos, items) && SortedItems(pool, tree, pos, items)
    ensures ItemsConvertible(pool, tree, pos, items)
    decreases items, 0
  {
    hide Sane;
    hide Tame;
    hide TameItems;
    hide Rooted;
    hide At;
    hide ItemsAt;
    hide Sorted;
    hide SortedItems;
    hide Convertible;
    hide ItemPos;
    hide ItemConvertible;
    forall k | 0 <= k < |items| ensures ItemConvertible(pool, tree, pos, items, k) {
      ItemAt(pool, pos, items, k);
      SortedItem(pool, tree, pos, items, k);
      TameItem(pos, items, k);
      TreeConvertible(pool, tree, ItemPos(pos, items, k), items[k]);
      ItemFine(pool, tree, pos, items, k);
    }
  }

  lemma MembersCan(pool: seq<Node>, tree: seq<KeyNode>, parent: nat, pos: nat, ms: seq<Member>)
    requires (forall i :: 0 <= i < |ms| ==> SaneMember(ms[i])) && TameMembers(parent, pos, ms) && Rooted(pool, tree)
    requires MembersAt(pool, pos, ms) && SortedMembers(pool, tree, pos, ms)
    ensures MembersConvertible(pool, tree, parent, pos, ms)
    decreases ms, 0
  {
    hide Sane;
    hide WfToken;
    hide Tame;
    hide TameMembers;
    hide Rooted;
    hide At;
    hide MembersAt;
    hide Sorted;
    hide SortedMembers;
    hide Convertible;
    hide KeyPos;
    hide MemberConvertible;
    hide KeyText;
    hide Scoped;
    forall k | 0 <= k < |ms| && StoredKey(parent, ms[k]) ensures MemberConvertible(pool, tree, pos, ms, k) {
      assert SaneMember(ms[k]);
      assert ms[k].val < ms[k];
      Convert.MemberAt(pool, pos, ms, k);
      SortedMember(pool, tree, pos, ms, k);
      TameMember(parent, pos, ms, k);
      TreeConvertible(pool, tree, KeyPos(pos, ms, k) + 1, ms[k].val);
      MemberFine(pool, tree, pos, ms, k);
    }
  }

  lemma ItemFine(pool: seq<Node>, tree: seq<KeyNode>, pos: nat, items: seq<Tree>, k: nat)
    requires k < |items| && Convertible(pool, tree, ItemPos(pos, items, k), items[k])
    ensures ItemConvertible(pool, tree, pos, items, k)
  {
    hide Convertible;
  }

  lemma MemberFine(pool: seq<Node>, tree: seq<KeyNode>, pos: nat, ms: seq<Member>, k: nat)
    requires k < |ms| && Convertible(pool, tree, KeyPos(pos, ms, k) + 1, ms[k].val)
    ensures MemberConvertible(pool, tree, pos, ms, k)
  {
    hide Convertible;
  }

  lemma RootedForward(pool: seq<Node>, tree: seq<KeyNode>)
    requires Rooted(pool, tree)
    ensures Forward(tree)
  {
    hide Forward;
  }

  // ---------------------------------------------------------------- the texts of an object

  /** The texts of an object's stored keys. */
  function StoredTexts(parent: nat, ms: seq<Member>): set<bytes> {
    if ms == [] then {}
    else (if StoredKey(parent, ms[0]) then {KeyText(ms[0].key)} else {}) + StoredTexts(parent, ms[1..])
  }

  /** The texts of all its keys in the source but overlong ones. */
  function SourceTexts(parent: nat, ms: seq<Member>): set<bytes> {
    if ms == [] then {}
    else (if |Scoped(parent, KeyText(ms[0].key))| <= MAX_STORED_LEN then {KeyText(ms[0].key)} else {}) + SourceTexts(parent, ms[1..])
  }

  lemma {:induction false} StoredOfSource(parent: nat, pos: nat, ms: seq<Member>, seen: set<bytes>, x: bytes)
    ensures var stored := StoredTexts(parent, MarkedMembers(parent, pos, ms, seen));
            && (x in stored ==> x in SourceTexts(parent, ms))
            && (x in SourceTexts(parent, ms) ==> |Scoped(parent, x)| <= MAX_STORED_LEN && (x in stored || x in seen))
    decreases |ms|
  {
    hide KeyText;
    hide Scoped;
    hide Marked;
    hide Len;
    if ms != [] {
      var text := KeyText(ms[0].key);
      var next := pos + 1 + Len(ms[0].val);
      MembersForms(parent, pos, ms[0], ms[1..], seen);
      assert ms == [ms[0]] + ms[1..];
      StoredOfSource(parent, next, ms[1..], seen + {text}, x);
      var dup := IsDuplicate(parent, text, seen);
      var head := Member(ms[0].key, dup, Marked(pos + 1, ms[0].val, dup));
      var more := MarkedMembers(parent, next, ms[1..], seen + {text});
      assert ([head] + more)[0] == head && ([head] + more)[1..] == more;
    }
  }

  /** A key of the object has this text. */
  ghost predicate HasKey(ms: seq<Member>, x: bytes) {
    exists i :: 0 <= i < |ms| && KeyText(ms[i].key) == x
  }

  lemma {:induction false} SourceTextIs(parent: nat, ms: seq<Member>, x: bytes)
    ensures x in SourceTexts(parent, ms) <==> HasKey(ms, x) && |Decimal(parent)| + 1 + |x| <= 65535
    decreases |ms|
  {
    hide KeyText;
    hide Decimal;
    if ms != [] {
      SourceTextIs(parent, ms[1..], x);
      if HasKey(ms, x) {
        var i :| 0 <= i < |ms| && KeyText(ms[i].key) == x;
        assert i > 0 ==> ms[1..][i - 1] == ms[i];
      }
      if HasKey(ms[1..], x) {
        var i :| 0 <= i < |ms| - 1 && KeyText(ms[1..][i].key) == x;
        assert KeyText(ms[i + 1].key) == x;
      }
      if KeyText(ms[0].key) == x {
        assert HasKey(ms, x);
      }
    }
  }

  /** Marking duplicates loses no text: what is stored of an object are the texts of all its
      keys in the source but those whose scoped key has more than 65535 bytes. */
  lemma SourceStored(at: nat, ms: seq<Member>)
    ensures StoredTexts(at, MarkedMembers(at, at + 1, ms, {})) == SourceTexts(at, ms)
    ensures forall x: bytes :: x in SourceTexts(at, ms) <==> HasKey(ms, x) && |Decimal(at)| + 1 + |x| <= 65535
  {
    hide *;
    forall x: bytes ensures x in SourceTexts(at, ms) <==> HasKey(ms, x) && |Decimal(at)| + 1 + |x| <= 65535 {
      SourceTextIs(at, ms, x);
    }
    forall x: bytes ensures x in StoredTexts(at, MarkedMembers(at, at + 1, ms, {})) <==> x in SourceTexts(at, ms) {
      StoredOfSource(at, at + 1, ms, {}, x);
    }
  }

  lemma {:induction false} OwnTexts(pool: seq<Node>, parent: nat, pos: nat, ms: seq<Member>, x: bytes)
    requires MembersAt(pool, pos, ms)
    ensures HasText(pool, OwnKeys(parent, pos, ms), x) <==> x in StoredTexts(parent, ms)
    decreases |ms|
  {
    hide StoredKey;
    hide KeyText;
    hide At;
    hide Len;
    if ms != [] {
      var next := pos + 1 + Len(ms[0].val);
      OwnTexts(pool, parent, next, ms[1..], x);
      TextIs(pool, pos);
      var mine, rest := OwnKeys(parent, pos, ms), OwnKeys(parent, next, ms[1..]);
      if HasText(pool, mine, x) {
        var p :| p in mine && TextAt(pool, p) == x;
        assert p in rest || (p == pos && StoredKey(parent, ms[0]));
      }
      if HasText(pool, rest, x) {
        var p :| p in rest && TextAt(pool, p) == x;
        assert p in mine;
      }
      if StoredKey(parent, ms[0]) {
        assert pos in mine;
      }
    }
  }

  // ---------------------------------------------------------------- parts of a converted value

  /** When `v` was made of `t`, dictionary `o` was made of the object `s`, which stands at
      pool index `i`. */
  ghost predicate Part(w: World, v: Value, pool: seq<Node>, tree: seq<KeyNode>, at: nat, t: Tree, o: nat, i: nat, s: Tree)
    decreases t, 2
  {
    match t
    case Leaf(_, _) => false
    case Arr(_, items) =>
      v.VArr? && v.arr.Some? && v.arr.value < |w.lists| && PartItems(w, w.lists[v.arr.value], pool, tree, at + 1, items, o, i, s)
    case Obj(_, ms) =>
      && v.VObj? && v.obj.Some? && v.obj.value < |w.dicts| && at < |pool|
      && (|| (o == v.obj.value && i == at && s == t)
          || PartMembers(w, w.dicts[v.obj.value].vals, pool, tree, at + 1, ms, Finals(pool, InOrder(tree, pool[at].keyTreeRoot)), o, i, s))
  }

  ghost predicate PartItems(w: World, cells: seq<Value>, pool: seq<Node>, tree: seq<KeyNode>, pos: nat, items: seq<Tree>, o: nat, i: nat, s: Tree)
    decreases items, 1
  {
    exists k :: 0 <= k < |cells| && k < |items| && PartItem(w, cells[k], pool, tree, pos, items, k, o, i, s)
  }

  ghost predicate PartItem(w: World, v: Value, pool: seq<Node>, tree: seq<KeyNode>, pos: nat, items: seq<Tree>, k: nat, o: nat, i: nat, s: Tree)
    requires k < |items|
    decreases items, 0
  {
    Part(w, v, pool, tree, ItemPos(pos, items, k), items[k], o, i, s)
  }

  ghost predicate PartMembers(w: World, vals: seq<Value>, pool: seq<Node>, tree: seq<KeyNode>, pos: nat, ms: seq<Member>, list: seq<nat>, o: nat, i: nat, s: Tree)
    decreases ms, 1
  {
    exists k :: 0 <= k < |vals| && k < |list| && PartMember(w, vals[k], pool, tree, pos, ms, list[k], o, i, s)
  }

  ghost predicate PartMember(w: World, v: Value, pool: seq<Node>, tree: seq<KeyNode>, pos: nat, ms: seq<Member>, p: nat, o: nat, i: nat, s: Tree)
    decreases ms, 0
  {
    var m := MemberIdx(pos, ms, p);
    m.Some? && (assert ms[m.value].val < ms[m.value]; Part(w, v, pool, tree, p + 1, ms[m.value].val, o, i, s))
  }

  /** A pool and its trees, the tree it holds from the start, and what was made of it. */
  datatype Made = Made(v: Value, pool: seq<Node>, tree: seq<KeyNode>, t: Tree)

  /** The object `s` at pool index `i` was made into dictionary `o`, and its keys are sorted. */
  ghost predicate ObjectMade(strtod: bytes -> Bits, w: World, pool: seq<Node>, tree: seq<KeyNode>, o: nat, i: nat, s: Tree, lo: Floor) {
    && s.Obj? && i < |pool| && Represents(strtod, w, VObj(Some(o)), pool, tree, i, s, lo)
    && SortedObject(pool, tree, i, s.members) && MembersAt(pool, i + 1, s.members)
    && NulFree(pool, InOrder(tree, pool[i].keyTreeRoot))
  }

  lemma {:induction false} PartMade(strtod: bytes -> Bits, w: World, v: Value, pool: seq<Node>, tree: seq<KeyNode>, at: nat, t: Tree, lo: Floor, o: nat, i: nat, s: Tree)
    requires Represents(strtod, w, v, pool, tree, at, t, lo) && At(pool, at, t) && Sorted(pool, tree, at, t) && Convertible(pool, tree, at, t)
    requires Part(w, v, pool, tree, at, t, o, i, s)
    ensures ObjectMade(strtod, w, pool, tree, o, i, s, lo)
    decreases t, 2
  {
    hide RepItems;
    hide RepMembers;
    hide ItemsAt;
    hide MembersAt;
    hide SortedItems;
    hide SortedMembers;
    hide SortedObject;
    hide ItemsConvertible;
    hide MembersConvertible;
    hide PartItems;
    hide PartMembers;
    hide InOrder;
    hide Finals;
    hide LeafValue;
    hide Strict;
    hide TextAt;
    hide MemberIdx;
    hide StoredKey;
    match t {
      case Arr(_, items) =>
        PartOfItems(strtod, w, w.lists[v.arr.value], pool, tree, at + 1, items, lo, o, i, s);
      case Obj(_, ms) =>
        ObjectParts(pool, tree, at, t);
        if !(o == v.obj.value && i == at && s == t) {
          PartOfMembers(strtod, w, w.dicts[v.obj.value], pool, tree, at, ms, lo, o, i, s);
        }
      case _ =>
    }
  }

  lemma PartOfItems(strtod: bytes -> Bits, w: World, cells: seq<Value>, pool: seq<Node>, tree: seq<KeyNode>, pos: nat, items: seq<Tree>, lo: Floor, o: nat, i: nat, s: Tree)
    requires |cells| == |items| && RepItems(strtod, w, cells, pool, tree, pos, items, lo)
    requires ItemsAt(pool, pos, items) && SortedItems(pool, tree, pos, items) && ItemsConvertible(pool, tree, pos, items)
    requires PartItems(w, cells, pool, tree, pos, items, o, i, s)
    ensures ObjectMade(strtod, w, pool, tree, o, i, s, lo)
    decreases items, 0
  {
    hide Represents;
    hide ObjectMade;
    hide Part;
    hide ItemsAt;
    hide SortedItems;
    hide Sorted;
    hide At;
    hide Convertible;
    hide ItemsConvertible;
    var k :| 0 <= k < |cells| && k < |items| && PartItem(w, cells[k], pool, tree, pos, items, k, o, i, s);
    assert RepItem(strtod, w, cells[k], pool, tree, pos, items, k, lo);
    ItemAt(pool, pos, items, k);
    SortedItem(pool, tree, pos, items, k);
    ItemConvertibleAt(pool, tree, pos, items, k);
    PartMade(strtod, w, cells[k], pool, tree, ItemPos(pos, items, k), items[k], lo, o, i, s);
  }

  lemma PartOfMembers(strtod: bytes -> Bits, w: World, d: Dict, pool: seq<Node>, tree: seq<KeyNode>, at: nat, ms: seq<Member>, lo: Floor, o: nat, i: nat, s: Tree)
    requires at < |pool| && ListOk(pool, tree, at, ms)
    requires |d.keys| == |d.vals| == |Finals(pool, InOrder(tree, pool[at].keyTreeRoot))|
    requires RepMembers(strtod, w, d, pool, tree, at + 1, ms, Finals(pool, InOrder(tree, pool[at].keyTreeRoot)), lo)
    requires MembersAt(pool, at + 1, ms) && SortedMembers(pool, tree, at + 1, ms) && MembersConvertible(pool, tree, at, at + 1, ms)
    requires PartMembers(w, d.vals, pool, tree, at + 1, ms, Finals(pool, InOrder(tree, pool[at].keyTreeRoot)), o, i, s)
    ensures ObjectMade(strtod, w, pool, tree, o, i, s, lo)
    decreases ms, 0
  {
    hide Represents;
    hide ObjectMade;
    hide Part;
    hide MembersAt;
    hide SortedMembers;
    hide Sorted;
    hide At;
    hide Convertible;
    hide MembersConvertible;
    hide InOrder;
    hide Finals;
    hide Strict;
    hide TextAt;
    hide CStr;
    hide StoredKey;
    hide MemberIdx;
    var all := InOrder(tree, pool[at].keyTreeRoot);
    var list := Finals(pool, all);
    var k :| 0 <= k < |d.vals| && k < |list| && PartMember(w, d.vals[k], pool, tree, at + 1, ms, list[k], o, i, s);
    assert RepMember(strtod, w, d.keys[k], d.vals[k], pool, tree, at + 1, ms, list[k], lo);
    ChosenListed(pool, all, list[k]);
    var m := MemberParts(pool, tree, at, at + 1, ms, list[k]);
    SortedMember(pool, tree, at + 1, ms, m);
    IdxPos(at + 1, ms, list[k]);
    assert ms[m].val < ms[m];
    PartMade(strtod, w, d.vals[k], pool, tree, list[k] + 1, ms[m].val, lo, o, i, s);
  }

  lemma ChosenListed(pool: seq<Node>, list: seq<nat>, f: nat)
    requires Strict(pool, list) && f in Finals(pool, list)
    ensures f in list
  {
    hide Strict;
    hide Finals;
    hide ByText;
    FinalsAre(pool, list);
  }

  lemma IdxPos(pos: nat, ms: seq<Member>, p: nat)
    requires MemberIdx(pos, ms, p).Some?
    ensures var m := MemberIdx(pos, ms, p).value; m < |ms| && KeyPos(pos, ms, m) == p
  {
    hide KeyPos;
    hide MemberIdx;
  }

  // ---------------------------------------------------------------- canonical shapes

  /** The keys of the dictionary are the texts of the object's stored keys. */
  lemma DictKeys(strtod: bytes -> Bits, w: World, pool: seq<Node>, tree: seq<KeyNode>, o: nat, i: nat, t: Tree, lo: Floor)
    requires ObjectMade(strtod, w, pool, tree, o, i, t, lo)
    ensures o < |w.dicts| && forall x: bytes :: x in w.dicts[o].keys <==> x in StoredTexts(i, t.members)
  {
    hide RepMembers;
    hide InOrder;
    hide Finals;
    hide MembersAt;
    hide NulFree;
    hide Strict;
    hide OwnKeys;
    hide Texts;
    hide StoredTexts;
    hide HasText;
    var own := OwnKeys(i, i + 1, t.members);
    DictTexts(strtod, w, w.dicts[o], pool, tree, i, t.members, lo);
    FinalTexts(pool, InOrder(tree, pool[i].keyTreeRoot), own);
    forall x: bytes ensures x in w.dicts[o].keys <==> x in StoredTexts(i, t.members) {
      OwnTexts(pool, i, i + 1, t.members, x);
      assert HasText(pool, own, x) <==> x in w.dicts[o].keys;
    }
  }

  /** Two objects converted from parsed texts share one shape exactly when their stored keys
      have the same texts. */
  lemma CanonicalShapes(s: State, strtod: bytes -> Bits, o: nat, p: nat,
                        a: seq<Node>, ta: seq<KeyNode>, i: nat, t: Tree, lo: Floor,
                        b: seq<Node>, tb: seq<KeyNode>, k: nat, u: Tree, lp: Floor)
    requires StateOk(s)
    requires ObjectMade(strtod, WorldOf(s), a, ta, o, i, t, lo) && ObjectMade(strtod, WorldOf(s), b, tb, p, k, u, lp)
    ensures o < |s.objs| && p < |s.objs|
    ensures StoredTexts(i, t.members) == StoredTexts(k, u.members) <==> s.objs[o].shape == s.objs[p].shape
  {
    hide StateOk;
    hide StoredTexts;
    hide ObjectMade;
    hide Formed;
    StateParts(s);
    MadeIsObject(strtod, WorldOf(s), a, ta, o, i, t, lo);
    MadeIsObject(strtod, WorldOf(s), b, tb, p, k, u, lp);
    DictKeys(strtod, WorldOf(s), a, ta, o, i, t, lo);
    DictKeys(strtod, WorldOf(s), b, tb, p, k, u, lp);
    if StoredTexts(i, t.members) == StoredTexts(k, u.members) {
      SameDictKeys(s, strtod, o, p, a, ta, i, t, lo, b, tb, k, u, lp);
      SameKeysSameShape(s, o, p);
    }
    if s.objs[o].shape == s.objs[p].shape {
      SameShapeSameKeys(s, o, p);
      forall x: bytes ensures x in StoredTexts(i, t.members) <==> x in StoredTexts(k, u.members) {
        assert x in WorldOf(s).dicts[o].keys <==> x in StoredTexts(i, t.members);
        assert x in WorldOf(s).dicts[p].keys <==> x in StoredTexts(k, u.members);
      }
    }
  }

  lemma SameShapeSameKeys(s: State, o: nat, p: nat)
    requires StateOk(s) && o < |s.objs| && p < |s.objs| && s.objs[o].shape == s.objs[p].shape
    ensures WorldOf(s).dicts[o].keys == WorldOf(s).dicts[p].keys
  {
    hide ShapesOk;
    hide Path;
    hide WorldOk;
    StateParts(s);
    WorldAt(s);
  }

  lemma SameDictKeys(s: State, strtod: bytes -> Bits, o: nat, p: nat,
                     a: seq<Node>, ta: seq<KeyNode>, i: nat, t: Tree, lo: Floor,
                     b: seq<Node>, tb: seq<KeyNode>, k: nat, u: Tree, lp: Floor)
    requires StateOk(s)
    requires ObjectMade(strtod, WorldOf(s), a, ta, o, i, t, lo) && ObjectMade(strtod, WorldOf(s), b, tb, p, k, u, lp)
    requires StoredTexts(i, t.members) == StoredTexts(k, u.members)
    ensures o < |WorldOf(s).dicts| && p < |WorldOf(s).dicts| && WorldOf(s).dicts[o].keys == WorldOf(s).dicts[p].keys
  {
    hide StateOk;
    hide RepMembers;
    hide InOrder;
    hide Finals;
    hide SortedObject;
    hide MembersAt;
    hide NulFree;
    hide OwnKeys;
    hide StoredTexts;
    hide HasText;
    StateParts(s);
    var w := WorldOf(s);
    var ka, kb := OwnKeys(i, i + 1, t.members), OwnKeys(k, k + 1, u.members);
    forall x: bytes ensures HasText(a, ka, x) <==> HasText(b, kb, x) {
      OwnTexts(a, i, i + 1, t.members, x);
      OwnTexts(b, k, k + 1, u.members, x);
    }
    CanonicalOrder(a, ta, i, t.members, b, tb, k, u.members);
    DictTexts(strtod, w, w.dicts[o], a, ta, i, t.members, lo);
    DictTexts(strtod, w, w.dicts[p], b, tb, k, u.members, lp);
  }

  lemma DictTexts(strtod: bytes -> Bits, w: World, d: Dict, pool: seq<Node>, tree: seq<KeyNode>, at: nat, ms: seq<Member>, lo: Floor)
    requires SortedObject(pool, tree, at, ms) && NulFree(pool, InOrder(tree, pool[at].keyTreeRoot))
    requires |d.keys| == |d.vals| == |Finals(pool, InOrder(tree, pool[at].keyTreeRoot))|
    requires RepMembers(strtod, w, d, pool, tree, at + 1, ms, Finals(pool, InOrder(tree, pool[at].keyTreeRoot)), lo)
    ensures d.keys == Texts(pool, Finals(pool, InOrder(tree, pool[at].keyTreeRoot)))
  {
    hide InOrder;
    hide Represents;
    hide TextAt;
    hide Texts;
    hide Finals;
    hide Strict;
    hide OwnKeys;
    hide CStr;
    hide MemberIdx;
    var all := InOrder(tree, pool[at].keyTreeRoot);
    var list := Finals(pool, all);
    TextsAt(pool, list);
    forall n | 0 <= n < |list| ensures d.keys[n] == Texts(pool, list)[n] {
      assert RepMember(strtod, w, d.keys[n], d.vals[n], pool, tree, at + 1, ms, list[n], lo);
      assert list[n] in list;
      ChosenListed(pool, all, list[n]);
    }
  }

  /** What was converted, together with everything the shapes depend on. */
  ghost predicate MadeOk(strtod: bytes -> Bits, w: World, m: Made) {
    && Represents(strtod, w, m.v, m.pool, m.tree, 0, m.t, Floor(0, 0))
    && At(m.pool, 0, m.t) && Sorted(m.pool, m.tree, 0, m.t) && Convertible(m.pool, m.tree, 0, m.t)
  }

  /** Objects of the two values share their shape exactly when their stored keys have the
      same texts. */
  ghost predicate ShapesAgree(s: State, a: Made, b: Made)
    requires Formed(s)
  {
    forall o: nat, i: nat, x: Tree, p: nat, k: nat, y: Tree ::
      Part(WorldOf(s), a.v, a.pool, a.tree, 0, a.t, o, i, x) && Part(WorldOf(s), b.v, b.pool, b.tree, 0, b.t, p, k, y)
      ==> x.Obj? && y.Obj? && (StoredTexts(i, x.members) == StoredTexts(k, y.members) <==> SameShape(s, o, p))
  }

  ghost predicate SameShape(s: State, o: nat, p: nat) {
    o < |s.objs| && p < |s.objs| && s.objs[o].shape == s.objs[p].shape
  }

  lemma PairShapes(s: State, strtod: bytes -> Bits, a: Made, b: Made, o: nat, i: nat, x: Tree, p: nat, k: nat, y: Tree)
    requires StateOk(s) && MadeOk(strtod, WorldOf(s), a) && MadeOk(strtod, WorldOf(s), b)
    requires Part(WorldOf(s), a.v, a.pool, a.tree, 0, a.t, o, i, x) && Part(WorldOf(s), b.v, b.pool, b.tree, 0, b.t, p, k, y)
    ensures x.Obj? && y.Obj? && (StoredTexts(i, x.members) == StoredTexts(k, y.members) <==> SameShape(s, o, p))
  {
    hide StateOk;
    hide Represents;
    hide At;
    hide Sorted;
    hide Convertible;
    hide Part;
    hide StoredTexts;
    hide ObjectMade;
    hide Formed;
    hide WorldOf;
    var lo := Floor(0, 0);
    StateParts(s);
    PartMade(strtod, WorldOf(s), a.v, a.pool, a.tree, 0, a.t, lo, o, i, x);
    PartMade(strtod, WorldOf(s), b.v, b.pool, b.tree, 0, b.t, lo, p, k, y);
    MadeIsObject(strtod, WorldOf(s), a.pool, a.tree, o, i, x, lo);
    MadeIsObject(strtod, WorldOf(s), b.pool, b.tree, p, k, y, lo);
    CanonicalShapes(s, strtod, o, p, a.pool, a.tree, i, x, lo, b.pool, b.tree, k, y, lo);
  }

  lemma MadeShapes(s: State, strtod: bytes -> Bits, a: Made, b: Made)
    requires StateOk(s) && MadeOk(strtod, WorldOf(s), a) && MadeOk(strtod, WorldOf(s), b)
    ensures Formed(s) && ShapesAgree(s, a, b)
  {
    hide StateOk;
    hide MadeOk;
    hide Part;
    hide StoredTexts;
    hide SameShape;
    hide Formed;
    hide WorldOf;
    StateParts(s);
    forall o: nat, i: nat, x: Tree, p: nat, k: nat, y: Tree
      | Part(WorldOf(s), a.v, a.pool, a.tree, 0, a.t, o, i, x) && Part(WorldOf(s), b.v, b.pool, b.tree, 0, b.t, p, k, y)
      ensures x.Obj? && y.Obj? && (StoredTexts(i, x.members) == StoredTexts(k, y.members) <==> SameShape(s, o, p))
    {
      PairShapes(s, strtod, a, b, o, i, x, p, k, y);
    }
  }

  lemma MadeIsObject(strtod: bytes -> Bits, w: World, pool: seq<Node>, tree: seq<KeyNode>, o: nat, i: nat, s: Tree, lo: Floor)
    requires ObjectMade(strtod, w, pool, tree, o, i, s, lo)
    ensures s.Obj?
  {
    hide Represents;
    hide SortedObject;
    hide MembersAt;
    hide NulFree;
    hide InOrder;
  }

  /** A later conversion leaves what was made before as it is. */
  lemma MadeStays(strtod: bytes -> Bits, a: World, b: World, m: Made)
    requires MadeOk(strtod, a, m) && Extends(a, b)
    ensures MadeOk(strtod, b, m)
  {
    hide Represents;
    hide At;
    hide Sorted;
    hide Convertible;
    FloorItself();
    RepFrame(strtod, a, b, m.v, m.pool, m.tree, 0, m.t, Floor(0, 0), Floor(0, 0));
  }

  lemma FloorItself()
    ensures forall lo: Floor :: Below(lo, lo) && Below(Floor(0, 0), lo)
  {
  }

  // ---------------------------------------------------------------- from texts

  lemma TextSane(src: bytes, t: Tree)
    requires IsTextOf(src, t)
    ensures Sane(Marked(0, t, false))
  {
    hide *;
    TextIsWf(src, t);
    MarkedSane(0, t);
  }

  /** Parses a text and converts the value: every text of the grammar nested at most 64 deep
      whose stored keys are free of NUL and not too many in one object. */
  method ConvertText(strtod: bytes -> Bits, src: bytes, hash: bytes -> nat, h: Heap, ghost t: Tree)
    returns (ok: bool, v: Value, ghost m: Made)
    requires h.Valid() && WorldOk(h.World())
    requires IsTextOf(src, t) && Nesting(t) <= 64 && |src| <= 4294967295 && Tame(0, Marked(0, t, false))
    modifies h
    ensures ok && h.Valid() && WorldOk(h.World()) && Extends(old(h.World()), h.World())
    ensures m.v == v && m.t == Marked(0, t, false) && MadeOk(strtod, h.World(), m)
  {
    hide *;
    var b;
    ok, b := ParseToAst(src, hash);
    var pool, trees := b.value.nodes, b.value.keyTree;
    ghost var d := Marked(0, t, false);
    TextSane(src, t);
    TreeConvertible(pool, trees.nodes, 0, d);
    RootedForward(pool, trees.nodes);
    ghost var w := h.World();
    v := AstToValue(h, strtod, pool, trees, 0, d);
    m := Made(v, pool, trees.nodes, d);
    NowMade(strtod, h.World(), m, FloorOf(w));
  }

  lemma NowMade(strtod: bytes -> Bits, w: World, m: Made, lo: Floor)
    requires Represents(strtod, w, m.v, m.pool, m.tree, 0, m.t, lo)
    requires At(m.pool, 0, m.t) && Sorted(m.pool, m.tree, 0, m.t) && Convertible(m.pool, m.tree, 0, m.t)
    ensures MadeOk(strtod, w, m)
  {
    hide Represents;
    hide At;
    hide Sorted;
    hide Convertible;
    FloorItself();
    RepFrame(strtod, w, w, m.v, m.pool, m.tree, 0, m.t, lo, Floor(0, 0));
  }

  /** Two texts, parsed apart and converted into one heap: objects share their shape exactly
      when their stored keys have the same texts, in one text or across them, whatever the
      order and the repetitions of keys in the source. */
  method ConvertBoth(strtod: bytes -> Bits, one: bytes, two: bytes, hash: bytes -> nat, h: Heap, ghost t: Tree, ghost u: Tree)
    returns (v: Value, w: Value, ghost a: Made, ghost b: Made)
    requires h.Valid() && WorldOk(h.World())
    requires IsTextOf(one, t) && Nesting(t) <= 64 && |one| <= 4294967295 && Tame(0, Marked(0, t, false))
    requires IsTextOf(two, u) && Nesting(u) <= 64 && |two| <= 4294967295 && Tame(0, Marked(0, u, false))
    modifies h
    ensures h.Valid()
    ensures a.v == v && a.t == Marked(0, t, false) && MadeOk(strtod, h.World(), a)
    ensures b.v == w && b.t == Marked(0, u, false) && MadeOk(strtod, h.World(), b)
    ensures ShapesAgree(h.St(), a, a) && ShapesAgree(h.St(), a, b) && ShapesAgree(h.St(), b, b)
  {
    hide *;
    var ok;
    ok, v, a := ConvertText(strtod, one, hash, h, t);
    ghost var before := h.World();
    ok, w, b := ConvertText(strtod, two, hash, h, u);
    MadeStays(strtod, before, h.World(), a);
    HeapState(h);
    MadeShapes(h.St(), strtod, a, a);
    MadeShapes(h.St(), strtod, a, b);
    MadeShapes(h.St(), strtod, b, b);
  }

  lemma HeapState(h: Heap)
    requires h.Valid()
    ensures StateOk(h.St()) && Formed(h.St()) && WorldOf(h.St()) == h.World()
  {
    StateParts(h.St());
    hide StateOk;
    hide WorldOf;
  }
}
