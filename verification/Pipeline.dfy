/** From texts to the verdict: what the parser leaves is what compiler and validator need. */
module Pipeline {
  import opened Bytes
  import opened Ast
  import opened Unescape
  import opened Keywords
  import opened Semantics
  import opened Lexing
  import opened Grammar
  import opened KeyTree
  import opened KeySet
  import opened ScopedKeys
  import opened Building
  import opened PoolShape
  import opened PoolBuilt
  import opened Parsing
  import opened Parser
  import opened Frontend
  import opened Prescan
  import opened Agreement
  import opened PoolSizes
  import opened Meaning
  import opened Equality
  import opened EqualityLaws
  import opened Validation

  // ---------------------------------------------------------------- tokens are well formed

  lemma StringHasNoQuote(s: bytes, i: nat)
    requires i <= |s| && StringEnd(s, i).Some?
    ensures s[i..StringEnd(s, i).value] != [] ==> s[i..StringEnd(s, i).value][0] != QUOTE
  {
    hide CharLen;
  }

  lemma LexedWf(s: bytes, p: nat)
    requires p <= |s|
    ensures Lex(s, p).Good? ==> WfToken(Lex(s, p).tok)
  {
    hide StringEnd;
    hide NumberEnd;
    hide WordAt;
    hide SkipSpaces;
    var q := SkipSpaces(s, p);
    if q < |s| && StringEnd(s, q + 1).Some? {
      StringHasNoQuote(s, q + 1);
    }
  }

  lemma {:induction false} TokensWf(s: bytes, p: nat)
    requires p <= |s|
    ensures forall i :: 0 <= i < |Tokens(s, p)| ==> WfToken(Tokens(s, p)[i])
    decreases |s| - p
  {
    hide Lex;
    hide WfToken;
    LexedWf(s, p);
    BadWf();
    if Lex(s, p).Good? {
      TokensWf(s, Lex(s, p).next);
    }
  }

  lemma BadWf()
    ensures WfToken(BAD_TOKEN)
  {
  }

  ghost predicate AllWf(ts: seq<Token>) {
    forall i :: 0 <= i < |ts| ==> WfToken(ts[i])
  }

  lemma AllWfSplit(a: seq<Token>, b: seq<Token>)
    ensures AllWf(a + b) <==> AllWf(a) && AllWf(b)
  {
    hide WfToken;
    if AllWf(a + b) {
      forall i | 0 <= i < |a| ensures WfToken(a[i]) {
        assert (a + b)[i] == a[i];
      }
      forall i | 0 <= i < |b| ensures WfToken(b[i]) {
        assert (a + b)[|a| + i] == b[i];
      }
    }
  }

  ghost predicate WfMember(m: Member) { WfToken(m.key) && WfTree(m.val) }

  lemma WfMembers(t: Tree)
    requires t.Obj?
    ensures WfTree(t) <==> forall i :: 0 <= i < |t.members| ==> WfMember(t.members[i])
  {
    hide WfToken;
    var ms := t.members;
    if WfTree(t) {
      forall i | 0 <= i < |ms| ensures WfMember(ms[i]) {
        assert ms[i].val < ms[i];
      }
    }
    if forall i :: 0 <= i < |ms| ==> WfMember(ms[i]) {
      forall i | 0 <= i < |ms| ensures WfToken(ms[i].key) && (assert ms[i].val < ms[i]; WfTree(ms[i].val)) {
        assert WfMember(ms[i]);
      }
    }
  }

  lemma {:induction false} SpellWf(t: Tree)
    requires AllWf(Spell(t))
    ensures WfTree(t)
    decreases t, 2
  {
    hide AllWf;
    hide SpellItems;
    hide SpellMembers;
    hide WfMember;
    match t {
      case Leaf(_, tok) => LeafWf(tok);
      case Arr(_, items) =>
        AllWfSplit([BracketToken] + SpellItems(items), [BRACKET_CLOSE]);
        AllWfSplit([BracketToken], SpellItems(items));
        ItemsWf(items);
      case Obj(_, ms) =>
        AllWfSplit([BraceToken] + SpellMembers(ms), [BRACE_CLOSE]);
        AllWfSplit([BraceToken], SpellMembers(ms));
        MembersWf(ms);
        WfMembers(t);
    }
  }

  lemma LeafWf(tok: Token)
    requires AllWf([tok])
    ensures WfToken(tok)
  {
    hide WfToken;
    assert [tok][0] == tok;
  }

  lemma {:induction false} ItemsWf(items: seq<Tree>)
    requires AllWf(SpellItems(items))
    ensures forall i :: 0 <= i < |items| ==> WfTree(items[i])
    decreases items, 1
  {
    hide AllWf;
    hide Spell;
    hide WfTree;
    if |items| == 1 {
      SpellWf(items[0]);
    } else if items != [] {
      AllWfSplit(Spell(items[0]) + [COMMA], SpellItems(items[1..]));
      AllWfSplit(Spell(items[0]), [COMMA]);
      SpellWf(items[0]);
      ItemsWf(items[1..]);
      assert forall i :: 1 <= i < |items| ==> items[i] == items[1..][i - 1];
    }
  }

  lemma {:induction false} MembersWf(ms: seq<Member>)
    requires AllWf(SpellMembers(ms))
    ensures forall i :: 0 <= i < |ms| ==> WfMember(ms[i])
    decreases ms, 1
  {
    hide AllWf;
    hide Spell;
    hide WfTree;
    hide WfToken;
    if ms != [] {
      var m := ms[0];
      assert m.val < m;
      var pair := [m.key, COLON] + Spell(m.val);
      if |ms| == 1 {
        assert SpellMembers(ms) == pair;
      } else {
        assert SpellMembers(ms) == pair + [COMMA] + SpellMembers(ms[1..]);
        AllWfSplit(pair + [COMMA], SpellMembers(ms[1..]));
        AllWfSplit(pair, [COMMA]);
        MembersWf(ms[1..]);
        assert forall i :: 1 <= i < |ms| ==> ms[i] == ms[1..][i - 1];
      }
      AllWfSplit([m.key, COLON], Spell(m.val));
      KeyWf(m.key);
      SpellWf(m.val);
    }
  }

  lemma KeyWf(tok: Token)
    requires AllWf([tok, COLON])
    ensures WfToken(tok)
  {
    hide WfToken;
    assert [tok, COLON][0] == tok;
  }

  /** Marking duplicates keeps every token. */
  lemma {:induction false} MarkedWf(at: nat, t: Tree, skip: bool)
    requires WfTree(t)
    ensures WfTree(Marked(at, t, skip))
    decreases t, 2
  {
    hide WfToken;
    hide WfMember;
    match t {
      case Leaf(_, _) =>
      case Arr(_, items) =>
        var xs := MarkedItems(at + 1, items);
        forall i | 0 <= i < |xs| ensures WfTree(xs[i]) {
          MarkedItemWf(at + 1, items, i);
        }
      case Obj(_, ms) =>
        WfMembers(t);
        var xs := MarkedMembers(at, at + 1, ms, {});
        forall i | 0 <= i < |xs| ensures WfToken(xs[i].key) && WfTree(xs[i].val) {
          MarkedMemberWf(at, at + 1, ms, {}, i);
        }
    }
  }

  lemma {:induction false} MarkedItemWf(pos: nat, items: seq<Tree>, i: nat)
    requires i < |items| && forall j :: 0 <= j < |items| ==> WfTree(items[j])
    ensures WfTree(MarkedItems(pos, items)[i])
    decreases items, 1
  {
    hide WfTree;
    hide Marked;
    hide Len;
    if i == 0 {
      MarkedWf(pos, items[0], false);
    } else {
      MarkedItemWf(pos + Len(items[0]), items[1..], i - 1);
    }
  }

  lemma {:induction false} MarkedMemberWf(parent: nat, pos: nat, ms: seq<Member>, seen: set<bytes>, i: nat)
    requires i < |ms| && forall j :: 0 <= j < |ms| ==> WfMember(ms[j])
    ensures WfToken(MarkedMembers(parent, pos, ms, seen)[i].key) && WfTree(MarkedMembers(parent, pos, ms, seen)[i].val)
    decreases ms, 1
  {
    hide WfTree;
    hide WfToken;
    hide Marked;
    hide Len;
    hide KeyText;
    hide IsDuplicate;
    if i == 0 {
      assert ms[0].val < ms[0];
      MarkedWf(pos + 1, ms[0].val, IsDuplicate(parent, KeyText(ms[0].key), seen));
    } else {
      MarkedMemberWf(parent, pos + 1 + Len(ms[0].val), ms[1..], seen + {KeyText(ms[0].key)}, i - 1);
    }
  }

  // ---------------------------------------------------------------- marked values are sane

  /** A parsed value is what the validator needs of its input. */
  lemma {:induction false} MarkedSane(at: nat, t: Tree)
    requires Doc(t) && WfTree(t)
    ensures Sane(Marked(at, t, false))
    decreases t, 2
  {
    hide WfToken;
    hide WfMember;
    hide DocMember;
    hide SaneMember;
    match t {
      case Leaf(_, _) =>
      case Arr(_, items) =>
        var xs := MarkedItems(at + 1, items);
        forall i | 0 <= i < |xs| ensures Sane(xs[i]) {
          MarkedItemSane(at + 1, items, i);
        }
      case Obj(_, ms) =>
        WfMembers(t);
        var xs := MarkedMembers(at, at + 1, ms, {});
        forall i | 0 <= i < |xs| ensures SaneMember(xs[i]) {
          MarkedMemberSane(at, at + 1, ms, {}, i);
        }
    }
  }

  lemma {:induction false} MarkedItemSane(pos: nat, items: seq<Tree>, i: nat)
    requires i < |items|
    requires forall j :: 0 <= j < |items| ==> WfTree(items[j]) && Doc(items[j])
    ensures Sane(MarkedItems(pos, items)[i])
    decreases items, 1
  {
    hide WfTree;
    hide Doc;
    hide Sane;
    hide Marked;
    hide Len;
    if i == 0 {
      MarkedSane(pos, items[0]);
    } else {
      MarkedItemSane(pos + Len(items[0]), items[1..], i - 1);
    }
  }

  lemma {:induction false} MarkedMemberSane(parent: nat, pos: nat, ms: seq<Member>, seen: set<bytes>, i: nat)
    requires i < |ms|
    requires forall j :: 0 <= j < |ms| ==> WfMember(ms[j]) && DocMember(ms[j])
    ensures SaneMember(MarkedMembers(parent, pos, ms, seen)[i])
    decreases ms, 1
  {
    hide WfTree;
    hide Doc;
    hide Sane;
    hide WfToken;
    hide Marked;
    hide Len;
    hide KeyText;
    hide IsDuplicate;
    if i == 0 {
      assert ms[0].val < ms[0];
      MarkedSane(pos + 1, ms[0].val);
    } else {
      MarkedMemberSane(parent, pos + 1 + Len(ms[0].val), ms[1..], seen + {KeyText(ms[0].key)}, i - 1);
    }
  }

  // ---------------------------------------------------------------- distinct keys

  /** The same spelling decodes to the same text. */
  lemma RawDiffers(a: Token, b: Token)
    requires WfToken(a) && WfToken(b) && a.kind == TString && b.kind == TString && KeyText(a) != KeyText(b)
    ensures a.raw != b.raw
  {
    hide Unescaped;
  }

  lemma NotEarlier(ms: seq<Member>, i: nat, j: nat)
    requires i < j < |ms| && !Earlier(ms, j, KeyText(ms[j].key))
    ensures KeyText(ms[i].key) != KeyText(ms[j].key)
  {
    hide KeyText;
  }

  lemma KeysDistinct(parent: nat, pos: nat, ms: seq<Member>)
    requires KeysFitMembers(MAX_KEY_LEN, parent, pos, ms)
    requires forall i :: 0 <= i < |ms| ==> WfMember(ms[i]) && DocMember(ms[i])
    ensures DistinctKeys(MarkedMembers(parent, pos, ms, {}))
  {
    hide MarkedMembers;
    hide KeysFitMembers;
    hide WfTree;
    hide Doc;
    hide WfToken;
    hide KeyText;
    hide Scoped;
    var r := MarkedMembers(parent, pos, ms, {});
    forall i, j | 0 <= i < j < |r| && !r[i].keySkip && !r[j].keySkip ensures r[i].key.raw != r[j].key.raw {
      DuplicatesExact(parent, pos, ms, {}, i);
      DuplicatesExact(parent, pos, ms, {}, j);
      FitAt(MAX_KEY_LEN, parent, pos, ms, j);
      NotEarlier(ms, i, j);
      RawDiffers(ms[i].key, ms[j].key);
    }
  }

  /** Where all scoped keys fit the key set, no object of a parsed value repeats a live key. */
  lemma {:induction false} MarkedIsDistinct(at: nat, t: Tree, skip: bool)
    requires Doc(t) && WfTree(t) && KeysFit(MAX_KEY_LEN, at, t)
    ensures Distinct(Marked(at, t, skip))
    decreases t, 2
  {
    hide WfToken;
    hide WfMember;
    hide DocMember;
    hide DistinctKeys;
    hide DistinctMember;
    match t {
      case Leaf(_, _) =>
      case Arr(_, items) =>
        var xs := MarkedItems(at + 1, items);
        forall i | 0 <= i < |xs| ensures Distinct(xs[i]) {
          MarkedItemDistinct(at + 1, items, i);
        }
      case Obj(_, ms) =>
        WfMembers(t);
        KeysDistinct(at, at + 1, ms);
        var xs := MarkedMembers(at, at + 1, ms, {});
        forall i | 0 <= i < |xs| ensures DistinctMember(xs[i]) {
          MarkedMemberDistinct(at, at + 1, ms, {}, i);
        }
    }
  }

  lemma {:induction false} MarkedItemDistinct(pos: nat, items: seq<Tree>, i: nat)
    requires i < |items| && KeysFitItems(MAX_KEY_LEN, pos, items)
    requires forall j :: 0 <= j < |items| ==> WfTree(items[j]) && Doc(items[j])
    ensures Distinct(MarkedItems(pos, items)[i])
    decreases items, 1
  {
    hide WfTree;
    hide Doc;
    hide Distinct;
    hide Marked;
    hide KeysFit;
    hide Len;
    if i == 0 {
      MarkedIsDistinct(pos, items[0], false);
    } else {
      MarkedItemDistinct(pos + Len(items[0]), items[1..], i - 1);
    }
  }

  lemma {:induction false} MarkedMemberDistinct(parent: nat, pos: nat, ms: seq<Member>, seen: set<bytes>, i: nat)
    requires i < |ms| && KeysFitMembers(MAX_KEY_LEN, parent, pos, ms)
    requires forall j :: 0 <= j < |ms| ==> WfMember(ms[j]) && DocMember(ms[j])
    ensures DistinctMember(MarkedMembers(parent, pos, ms, seen)[i])
    decreases ms, 1
  {
    hide WfTree;
    hide Doc;
    hide Distinct;
    hide WfToken;
    hide Marked;
    hide KeysFit;
    hide Len;
    hide KeyText;
    hide Scoped;
    hide IsDuplicate;
    if i == 0 {
      assert ms[0].val < ms[0];
      MarkedIsDistinct(pos + 1, ms[0].val, IsDuplicate(parent, KeyText(ms[0].key), seen));
    } else {
      MarkedMemberDistinct(parent, pos + 1 + Len(ms[0].val), ms[1..], seen + {KeyText(ms[0].key)}, i - 1);
    }
  }

  // ---------------------------------------------------------------- the pipeline

  lemma TextIsWf(src: bytes, t: Tree)
    requires IsTextOf(src, t)
    ensures WfTree(t) && Doc(t)
  {
    hide Tokens;
    hide Spell;
    hide WfTree;
    hide WfToken;
    hide Doc;
    hide IsTextOf;
    TextSpelled(src, t);
    TokensWf(src, StartOf(src));
    SpellWf(t);
  }

  /** Parsing a schema and a value, compiling the schema and running it: the verdict is
      what the schema, read as a tree, says of the value. */
  method ValidateText(env: Env, schemaText: bytes, dataText: bytes, hash: bytes -> nat, ghost s: Tree, ghost d: Tree)
    returns (ok: bool)
    requires |schemaText| <= 4294967295 && |dataText| <= 4294967295
    requires IsTextOf(schemaText, s) && Nesting(s) <= 64 && IsTextOf(dataText, d) && Nesting(d) <= 64
    requires Exact(Marked(0, s, false)) && Size1(Marked(0, s, false)) + Data1(Marked(0, s, false)) + 16 < 0x8000_0000
    ensures ok == Accepts(env, Marked(0, s, false), Marked(0, d, false))
  {
    hide IsTextOf;
    hide Marked;
    hide At;
    hide PoolShape.Built;
    hide Exact;
    hide Sane;
    hide Accepts;
    hide WfTree;
    hide Doc;
    hide Nesting;
    hide Len;
    hide Size1;
    hide Data1;
    TextIsWf(schemaText, s);
    TextIsWf(dataText, d);
    MarkedWf(0, s, false);
    MarkedSane(0, d);
    var okSchema, schema := ParseToAst(schemaText, hash);
    var schemaNodes := schema.value.nodes;
    var okData, data := ParseToAst(dataText, hash);
    ok := CompileAndValidate(env, schemaNodes, 0, data.value.nodes, 0, Marked(0, s, false), Marked(0, d, false));
  }
}
