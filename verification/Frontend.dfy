/** What the DOM front end promises: exactly the values of the grammar up to the depth limit
    are accepted, and the pool is their preorder flattening with duplicates marked. */
module Frontend {
  import opened Bytes
  import opened Ast
  import opened Unescape
  import opened Keywords
  import opened Lexing
  import opened Grammar
  import opened KeyTree
  import opened KeySet
  import opened ScopedKeys
  import opened Building
  import opened PoolShape
  import opened PoolBuilt
  import opened KeyOrder
  import opened Parsing
  import opened Parser
  import opened TextGrammar
  import opened TextTokens

  // ---------------------------------------------------------------- sizes

  lemma {:induction false} TokensShort(s: bytes, p: nat)
    requires p <= |s|
    ensures |Tokens(s, p)| <= |s| - p
    decreases |s| - p
  {
    hide LexAt;
    hide SkipSpaces;
    match Lex(s, p) {
      case EndOfInput =>
      case BadToken => BadInside(s, p);
      case Good(_, next) => TokensShort(s, next);
    }
  }

  lemma BadInside(s: bytes, p: nat)
    requires p <= |s| && Lex(s, p).BadToken?
    ensures p < |s|
  {
    hide LexAt;
  }

  /** Every node has a token of its own. */
  lemma {:induction false} SpellLen(t: Tree)
    ensures Len(t) <= |Spell(t)|
    decreases t, 1
  {
    match t {
      case Leaf(_, _) =>
      case Arr(_, items) => SpellItemsLen(items);
      case Obj(_, ms) => SpellMembersLen(ms);
    }
  }

  lemma {:induction false} SpellItemsLen(items: seq<Tree>)
    ensures ItemsLen(items) <= |SpellItems(items)|
    decreases items, 0
  {
    hide Spell;
    hide Len;
    if items != [] {
      SpellLen(items[0]);
      SpellItemsLen(items[1..]);
    }
  }

  lemma {:induction false} SpellMembersLen(ms: seq<Member>)
    ensures MembersLen(ms) <= |SpellMembers(ms)|
    decreases ms, 0
  {
    hide Spell;
    hide Len;
    if ms != [] {
      assert ms[0].val < ms[0];
      SpellLen(ms[0].val);
      SpellMembersLen(ms[1..]);
    }
  }

  lemma {:induction false} KeyCountLen(t: Tree)
    ensures KeyCount(t) <= Len(t)
    decreases t, 1
  {
    match t {
      case Leaf(_, _) =>
      case Arr(_, items) => KeyCountItemsLen(items);
      case Obj(_, ms) => KeyCountMembersLen(ms);
    }
  }

  lemma {:induction false} KeyCountItemsLen(items: seq<Tree>)
    ensures KeyCountItems(items) <= ItemsLen(items)
    decreases items, 0
  {
    if items != [] {
      KeyCountLen(items[0]);
      KeyCountItemsLen(items[1..]);
    }
  }

  lemma {:induction false} KeyCountMembersLen(ms: seq<Member>)
    ensures KeyCountMembers(ms) <= MembersLen(ms)
    decreases ms, 0
  {
    if ms != [] {
      assert ms[0].val < ms[0];
      KeyCountLen(ms[0].val);
      KeyCountMembersLen(ms[1..]);
    }
  }

  // ---------------------------------------------------------------- the DOM parser

  /** Behind an optional byte order mark the text derives the value by the grammar of
      RFC 8259, and no string in it has an unpaired surrogate escape. */
  ghost predicate IsTextOf(src: bytes, t: Tree) {
    DerivesText(src, if |src| >= 3 && src[0] == 0xEF && src[1] == 0xBB && src[2] == 0xBF then 3 else 0, t) && PairedValue(t)
  }

  /** These are the texts whose tokens spell the value. */
  lemma TextSpelled(src: bytes, t: Tree)
    ensures IsTextOf(src, t) <==> Doc(t) && Spell(t) == Tokens(src, StartOf(src))
  {
    hide *;
    TextMeans(src, t);
    TextExact(src, StartOf(src), t);
  }

  lemma TextMeans(src: bytes, t: Tree)
    ensures IsTextOf(src, t) <==> DerivesText(src, StartOf(src), t) && PairedValue(t)
  {
    hide DerivesText;
    hide PairedValue;
  }

  /** `"\uDEAD"`: the grammar derives it (section 8.2 of RFC 8259), the lexer refuses it. */
  const UNPAIRED: bytes := [34, 92, 117, 68, 69, 65, 68, 34]

  lemma UnpairedRefused()
    ensures exists t: Tree :: DerivesText(UNPAIRED, StartOf(UNPAIRED), t) && Nesting(t) == 0
    ensures forall t: Tree :: !IsTextOf(UNPAIRED, t)
  {
    hide IsTextOf;
    var raw: bytes := [92, 117, 68, 69, 65, 68];
    UnpairedDerived(raw);
    UnpairedTokens();
    forall t: Tree ensures !IsTextOf(UNPAIRED, t) {
      TextSpelled(UNPAIRED, t);
      if IsTextOf(UNPAIRED, t) {
        NoBadStart(t);
      }
    }
  }

  lemma UnpairedDerived(raw: bytes)
    requires raw == [92, 117, 68, 69, 65, 68]
    ensures DerivesText(UNPAIRED, StartOf(UNPAIRED), Leaf(false, Token(TString, raw, true)))
  {
    var cs := [Unicode([68, 69, 65, 68])];
    assert cs[1..] == [];
    assert Body(cs) == raw;
    assert IsWritten(raw, cs);
    var tok := Token(TString, raw, true);
    assert raw[0] == BACKSLASH;
    assert UNPAIRED[0..8] == [QUOTE] + raw + [QUOTE];
    assert DerivesString(UNPAIRED, 0, 8, tok);
    assert DerivesValue(UNPAIRED, 0, 8, Leaf(false, tok));
    MakeText(UNPAIRED, 0, 0, 8, Leaf(false, tok));
  }

  lemma UnpairedTokens()
    ensures Tokens(UNPAIRED, StartOf(UNPAIRED)) == [BAD_TOKEN]
  {
    assert HexOf(UNPAIRED, 3) == 0xDEAD;
    assert CharLen(UNPAIRED, 1) == 0;
    assert StringEnd(UNPAIRED, 1) == None;
  }

  lemma NoBadStart(t: Tree)
    requires Doc(t)
    ensures Spell(t) != [BAD_TOKEN]
  {
    SpellStart(t);
    if t.Leaf? {
      assert Spell(t)[0] == t.tok;
    }
  }

  lemma TextRead(src: bytes)
    ensures forall t: Tree :: IsTextOf(src, t) ==> ParseValue(Tokens(src, StartOf(src))) == Parsed(t, [])
    ensures ParseValue(Tokens(src, StartOf(src))).Parsed? && ParseValue(Tokens(src, StartOf(src))).rest == []
            ==> IsTextOf(src, ParseValue(Tokens(src, StartOf(src))).value)
  {
    hide ParseValue;
    hide Tokens;
    hide Doc;
    hide Spell;
    hide IsTextOf;
    var ts := Tokens(src, StartOf(src));
    TokenKinds(src, StartOf(src));
    GrammarExact(ts);
    forall t: Tree ensures IsTextOf(src, t) <==> Doc(t) && Spell(t) == ts {
      TextSpelled(src, t);
    }
    if ParseValue(ts).Parsed? && ParseValue(ts).rest == [] {
      var t: Tree :| Doc(t) && Spell(t) == ts;
      assert ParseValue(ts) == Parsed(t, []);
    }
  }

  /** A text stands for at most one value. */
  lemma TextUnique(src: bytes, t: Tree, u: Tree)
    requires IsTextOf(src, t) && IsTextOf(src, u)
    ensures t == u
  {
    hide *;
    TextRead(src);
  }

  /** The key set and the key-tree pool have room for every key of the text. */
  ghost predicate RoomFor(src: bytes, keys: nat) {
    forall t: Tree :: IsTextOf(src, t) ==> KeyCount(t) <= keys
  }

  /** Parsing a text: it succeeds exactly when the text is one for a value nested at most 64
      deep (`IsTextOf`); then the pool is that value laid out in preorder, duplicates marked, it is no
      longer than the text, and every object's key tree lists its live keys in order. */
  method ParseText(src: bytes, keySet: Set, keyTree: KeyTreePool) returns (ok: bool, b: Builder)
    requires keySet.Valid() && keySet.Contents() == {} && keyTree.nodes == []
    requires RoomFor(src, keySet.entries.Length)
    modifies keySet, keySet.entries, keyTree
    ensures ok <==> exists t: Tree :: IsTextOf(src, t) && Nesting(t) <= 64
    ensures ok ==> forall t: Tree :: IsTextOf(src, t) ==>
                     && |b.nodes| == Len(t) <= |src|
                     && Built(b.nodes, 0, Marked(0, t, false), -1)
                     && At(b.nodes, 0, Marked(0, t, false))
    ensures b.keyTree == keyTree && (ok ==> Rooted(b.nodes, keyTree.nodes))
    ensures ok && RoomFor(src, keyTree.capacity) ==> forall t: Tree :: IsTextOf(src, t) ==>
              Sorted(b.nodes, keyTree.nodes, 0, Marked(0, t, false)) && |keyTree.nodes| <= KeyCount(t)
  {
    hide ParseValue;
    hide Tokens;
    hide IsTextOf;
    hide AddTree;
    hide Built;
    hide At;
    hide Marked;
    hide StOk;
    hide Probed;
    hide Members;
    hide Used;
    hide Nesting;
    hide KeyCount;
    hide Len;
    hide Sorted;
    hide Rooted;
    var lexer := new Lexer(src);
    TextRead(src);
    ghost var lim := Limits(keySet.entries.Length, keyTree.capacity);
    ok, b := ParseAst(lexer, keySet, keyTree);
    if ok {
      StateRooted(b.State());
      forall t: Tree | IsTextOf(src, t)
        ensures |b.nodes| == Len(t) <= |src| && Built(b.nodes, 0, Marked(0, t, false), -1) && At(b.nodes, 0, Marked(0, t, false))
      {
        TextBuilt(src, lim, t);
      }
      if RoomFor(src, keyTree.capacity) {
        forall t: Tree | IsTextOf(src, t)
          ensures Sorted(b.nodes, keyTree.nodes, 0, Marked(0, t, false)) && |keyTree.nodes| <= KeyCount(t)
        {
          TextSorted(src, lim, t);
        }
      }
    }
  }

  lemma TextSorted(src: bytes, lim: Limits, t: Tree)
    requires IsTextOf(src, t) && KeyCount(t) <= lim.keys && KeyCount(t) <= lim.tree
    ensures StOk(St([], [], {}, []))
    ensures var r := AddTree(lim, St([], [], {}, []), t);
            Sorted(r.nodes, r.tree, 0, Marked(0, t, false)) && |r.tree| <= KeyCount(t)
  {
    hide *;
    TextDoc(src, t);
    AllSorted(lim, t);
  }

  lemma TextDoc(src: bytes, t: Tree)
    requires IsTextOf(src, t)
    ensures Doc(t)
  {
    hide *;
    TextSpelled(src, t);
  }

  lemma TextBuilt(src: bytes, lim: Limits, t: Tree)
    requires IsTextOf(src, t) && KeyCount(t) <= lim.keys
    ensures StOk(St([], [], {}, []))
    ensures var nodes := AddTree(lim, St([], [], {}, []), t).nodes;
            && |nodes| == Len(t) <= |src|
            && Built(nodes, 0, Marked(0, t, false), -1) && At(nodes, 0, Marked(0, t, false))
  {
    hide ParseValue;
    hide Tokens;
    hide AddTree;
    hide Built;
    hide At;
    hide Marked;
    hide StOk;
    hide KeyCount;
    hide Len;
    hide Spell;
    hide Doc;
    hide IsTextOf;
    TextSpelled(src, t);
    FromNothing(lim, t);
    BuiltAt(AddTree(lim, St([], [], {}, []), t).nodes, 0, Marked(0, t, false), -1);
    SpellLen(t);
    TokensShort(src, StartOf(src));
  }

  // ---------------------------------------------------------------- duplicates

  /** Some earlier member has the same text. */
  ghost predicate Earlier(ms: seq<Member>, i: nat, text: bytes) {
    exists j :: 0 <= j < i && j < |ms| && KeyText(ms[j].key) == text
  }

  lemma EarlierCons(m: Member, rest: seq<Member>, i: nat, text: bytes)
    ensures Earlier([m] + rest, i + 1, text) <==> KeyText(m.key) == text || Earlier(rest, i, text)
  {
    hide KeyText;
    var ms := [m] + rest;
    if j :| 0 <= j < i + 1 && j < |ms| && KeyText(ms[j].key) == text {
      if j > 0 {
        assert ms[j] == rest[j - 1];
      }
    }
    if KeyText(m.key) == text {
      assert KeyText(ms[0].key) == text;
    }
    if j :| 0 <= j < i && j < |rest| && KeyText(rest[j].key) == text {
      assert ms[j + 1] == rest[j];
    }
  }

  /** A key node is skipped exactly when an earlier key of the same object has the same
      text and its scoped key, the object's index, a colon and the text, has at most 64 bytes;
      its value is skipped exactly with it. */
  lemma {:induction false} DuplicatesExact(parent: nat, pos: nat, ms: seq<Member>, seen: set<bytes>, i: nat)
    requires i < |ms|
    ensures var m := MarkedMembers(parent, pos, ms, seen)[i];
            && m.key == ms[i].key
            && m.val.skip == m.keySkip
            && (m.keySkip <==>
                  |Decimal(parent)| + 1 + |KeyText(ms[i].key)| <= 64
                  && (KeyText(ms[i].key) in seen || Earlier(ms, i, KeyText(ms[i].key))))
    decreases ms
  {
    hide KeyText;
    hide Decimal;
    hide Marked;
    hide Len;
    var text0 := KeyText(ms[0].key);
    var next := pos + 1 + Len(ms[0].val);
    var rest := MarkedMembers(parent, next, ms[1..], seen + {text0});
    if i > 0 {
      assert MarkedMembers(parent, pos, ms, seen)[i] == rest[i - 1];
      DuplicatesExact(parent, next, ms[1..], seen + {text0}, i - 1);
      EarlierCons(ms[0], ms[1..], i - 1, KeyText(ms[i].key));
      assert ms == [ms[0]] + ms[1..];
    }
  }

  /** No array element is ever skipped. */
  lemma {:induction false} ElementsLive(pos: nat, items: seq<Tree>, i: nat)
    requires i < |items|
    ensures !MarkedItems(pos, items)[i].skip
    decreases items
  {
    hide Marked;
    hide Len;
    if i > 0 {
      ElementsLive(pos + Len(items[0]), items[1..], i - 1);
    }
  }

  // ---------------------------------------------------------------- keys that fit

  /** Every scoped key of the value at pool index `at` has at most this length. */
  predicate KeysFit(limit: nat, at: nat, t: Tree)
    decreases t
  {
    match t
    case Leaf(_, _) => true
    case Arr(_, items) => KeysFitItems(limit, at + 1, items)
    case Obj(_, ms) => KeysFitMembers(limit, at, at + 1, ms)
  }

  predicate KeysFitItems(limit: nat, pos: nat, items: seq<Tree>)
    decreases items
  {
    items == [] || (KeysFit(limit, pos, items[0]) && KeysFitItems(limit, pos + Len(items[0]), items[1..]))
  }

  predicate KeysFitMembers(limit: nat, parent: nat, pos: nat, ms: seq<Member>)
    decreases ms
  {
    ms == [] ||
    (assert ms[0].val < ms[0];
     |Scoped(parent, KeyText(ms[0].key))| <= limit && KeysFit(limit, pos + 1, ms[0].val)
     && KeysFitMembers(limit, parent, pos + 1 + Len(ms[0].val), ms[1..]))
  }

  lemma {:induction false} FitAt(limit: nat, parent: nat, pos: nat, ms: seq<Member>, i: nat)
    requires KeysFitMembers(limit, parent, pos, ms) && i < |ms|
    ensures |Scoped(parent, KeyText(ms[i].key))| <= limit
    decreases ms
  {
    hide KeyText;
    hide Scoped;
    hide KeysFit;
    hide Len;
    if i > 0 {
      FitAt(limit, parent, pos + 1 + Len(ms[0].val), ms[1..], i - 1);
    }
  }
}
