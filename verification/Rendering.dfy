/** The events of a text, written out again, are a text of the same value. */
module Rendering {
  import opened Bytes
  import opened Ast
  import opened Unescape
  import opened Lexing
  import opened Strings
  import opened Numerals
  import opened Grammar
  import opened TextGrammar
  import opened TextTokens
  import opened Frontend
  import opened SaxEvents

  // ---------------------------------------------------------------- writing events

  /** What an event stands for in a text. */
  function EventText(e: Event): bytes {
    match e
    case OnNull => NULL_WORD
    case OnBoolean(b) => if b then TRUE_WORD else FALSE_WORD
    case OnNumber(raw) => raw
    case OnString(raw) => [QUOTE] + raw + [QUOTE]
    case OnKey(raw) => [QUOTE] + raw + [QUOTE]
    case BeginObject => [0x7B]
    case EndObject => [0x7D]
    case BeginArray => [0x5B]
    case EndArray => [0x5D]
  }

  /** The event ends a value. */
  predicate EndsValue(e: Event) {
    e.OnNull? || e.OnBoolean? || e.OnNumber? || e.OnString? || e.EndObject? || e.EndArray?
  }

  /** A colon stands behind a key, a comma between values and members. */
  function Separator(prev: Option<Event>, e: Event): bytes {
    if prev.None? then []
    else if prev.value.OnKey? then [0x3A]
    else if EndsValue(prev.value) && !e.EndObject? && !e.EndArray? then [0x2C]
    else []
  }

  function RenderAfter(prev: Option<Event>, es: seq<Event>): bytes
    decreases |es|
  {
    if es == [] then [] else Separator(prev, es[0]) + EventText(es[0]) + RenderAfter(Some(es[0]), es[1..])
  }

  /** The events as a text without space. */
  function Render(es: seq<Event>): bytes { RenderAfter(None, es) }

  // ---------------------------------------------------------------- the value without space

  function CompactToken(tok: Token): bytes {
    match tok.kind
    case TString => [QUOTE] + tok.raw + [QUOTE]
    case TNumber => tok.raw
    case TTrue => TRUE_WORD
    case TFalse => FALSE_WORD
    case _ => NULL_WORD
  }

  function Compact(t: Tree): bytes
    decreases t
  {
    match t
    case Leaf(_, tok) => CompactToken(tok)
    case Arr(_, items) => [0x5B] + CompactItems(items) + [0x5D]
    case Obj(_, ms) => [0x7B] + CompactMembers(ms) + [0x7D]
  }

  function CompactItems(items: seq<Tree>): bytes
    decreases items
  {
    if items == [] then []
    else if |items| == 1 then Compact(items[0])
    else Compact(items[0]) + [0x2C] + CompactItems(items[1..])
  }

  function CompactMembers(ms: seq<Member>): bytes
    decreases ms
  {
    if ms == [] then []
    else
      assert ms[0].val < ms[0];
      var first := CompactToken(ms[0].key) + [0x3A] + Compact(ms[0].val);
      if |ms| == 1 then first else first + [0x2C] + CompactMembers(ms[1..])
  }

  // ---------------------------------------------------------------- rendering gives that text

  lemma RenderCons(prev: Option<Event>, e: Event, rest: seq<Event>)
    ensures RenderAfter(prev, [e] + rest) == Separator(prev, e) + EventText(e) + RenderAfter(Some(e), rest)
  {
    assert ([e] + rest)[1..] == rest;
  }

  /** Behind any two values the same follows. */
  lemma SameBehind(e: Event, f: Event, rest: seq<Event>)
    requires EndsValue(e) && EndsValue(f)
    ensures RenderAfter(Some(e), rest) == RenderAfter(Some(f), rest)
  {
  }

  /** What stands before a value. */
  function Before(prev: Option<Event>): bytes {
    if prev.None? then [] else if prev.value.OnKey? then [0x3A] else if EndsValue(prev.value) then [0x2C] else []
  }

  lemma SeparatorIs(prev: Option<Event>, e: Event)
    requires !e.EndObject? && !e.EndArray?
    ensures Separator(prev, e) == Before(prev)
  {
  }

  lemma LeafRendered(prev: Option<Event>, t: Tree, rest: seq<Event>)
    requires t.Leaf? && LiteralKind(t.tok.kind)
    ensures RenderAfter(prev, Events(t) + rest) == Before(prev) + Compact(t) + RenderAfter(Some(OnNull), rest)
  {
    hide RenderAfter;
    var e := LeafEvent(t.tok);
    RenderCons(prev, e, rest);
    SeparatorIs(prev, e);
    SameBehind(e, OnNull, rest);
  }

  lemma {:induction false} TreeRendered(prev: Option<Event>, t: Tree, rest: seq<Event>)
    requires Doc(t)
    ensures RenderAfter(prev, Events(t) + rest) == Before(prev) + Compact(t) + RenderAfter(Some(OnNull), rest)
    decreases t, 2
  {
    hide RenderAfter;
    hide ItemEvents;
    hide MemberEvents;
    hide CompactItems;
    hide CompactMembers;
    hide LeafEvent;
    hide CompactToken;
    hide DocMember;
    hide Before;
    match t {
      case Leaf(_, tok) => LeafRendered(prev, t, rest);
      case Arr(_, items) =>
        var more := [EndArray] + rest;
        assert Events(t) + rest == [BeginArray] + (ItemEvents(items) + more);
        RenderCons(prev, BeginArray, ItemEvents(items) + more);
        SeparatorIs(prev, BeginArray);
        ItemsRendered(items, more);
        ClosingRendered(EndArray, rest);
        SameBehind(EndArray, OnNull, rest);
        Assembled(Before(prev), [0x5B], CompactItems(items), [0x5D], RenderAfter(Some(OnNull), rest));
      case Obj(_, ms) =>
        var more := [EndObject] + rest;
        assert Events(t) + rest == [BeginObject] + (MemberEvents(ms) + more);
        RenderCons(prev, BeginObject, MemberEvents(ms) + more);
        SeparatorIs(prev, BeginObject);
        MembersRendered(ms, more);
        ClosingRendered(EndObject, rest);
        SameBehind(EndObject, OnNull, rest);
        Assembled(Before(prev), [0x7B], CompactMembers(ms), [0x7D], RenderAfter(Some(OnNull), rest));
    }
  }

  lemma Assembled(a: bytes, b: bytes, c: bytes, d: bytes, e: bytes)
    ensures a + b + (c + (d + e)) == a + (b + c + d) + e
  {
  }

  lemma ClosingRendered(e: Event, rest: seq<Event>)
    requires e.EndObject? || e.EndArray?
    ensures RenderAfter(Some(OnNull), [e] + rest) == EventText(e) + RenderAfter(Some(e), rest)
    ensures RenderAfter(Some(BeginArray), [e] + rest) == EventText(e) + RenderAfter(Some(e), rest)
    ensures RenderAfter(Some(BeginObject), [e] + rest) == EventText(e) + RenderAfter(Some(e), rest)
  {
    hide RenderAfter;
    RenderCons(Some(OnNull), e, rest);
    RenderCons(Some(BeginArray), e, rest);
    RenderCons(Some(BeginObject), e, rest);
  }

  /** The items behind an opening bracket or, with a comma before them, behind a value. */
  lemma {:induction false} ItemsRendered(items: seq<Tree>, rest: seq<Event>)
    requires forall i :: 0 <= i < |items| ==> Doc(items[i])
    ensures RenderAfter(Some(BeginArray), ItemEvents(items) + rest)
         == CompactItems(items) + RenderAfter(if items == [] then Some(BeginArray) else Some(OnNull), rest)
    ensures items != [] ==>
              RenderAfter(Some(OnNull), ItemEvents(items) + rest) == [0x2C] + CompactItems(items) + RenderAfter(Some(OnNull), rest)
    decreases items, 1
  {
    hide Events;
    hide RenderAfter;
    hide Compact;
    hide Doc;
    if items == [] {
      assert [] + rest == rest;
    } else {
      var x, more := items[0], items[1..];
      assert ItemEvents(items) + rest == Events(x) + (ItemEvents(more) + rest);
      TreeRendered(Some(BeginArray), x, ItemEvents(more) + rest);
      TreeRendered(Some(OnNull), x, ItemEvents(more) + rest);
      ItemsRendered(more, rest);
      if more == [] {
        assert ItemEvents(more) + rest == rest;
      }
    }
  }

  lemma {:induction false} PairRendered(prev: Option<Event>, m: Member, rest: seq<Event>)
    requires DocMember(m)
    ensures RenderAfter(prev, [OnKey(m.key.raw)] + (Events(m.val) + rest))
         == Before(prev) + (CompactToken(m.key) + [0x3A] + Compact(m.val)) + RenderAfter(Some(OnNull), rest)
    decreases m, 3
  {
    hide Events;
    hide RenderAfter;
    hide Compact;
    hide Doc;
    var key := OnKey(m.key.raw);
    assert m.val < m;
    RenderCons(prev, key, Events(m.val) + rest);
    SeparatorIs(prev, key);
    TreeRendered(Some(key), m.val, rest);
  }

  lemma {:induction false} MembersRendered(ms: seq<Member>, rest: seq<Event>)
    requires forall i :: 0 <= i < |ms| ==> DocMember(ms[i])
    ensures RenderAfter(Some(BeginObject), MemberEvents(ms) + rest)
         == CompactMembers(ms) + RenderAfter(if ms == [] then Some(BeginObject) else Some(OnNull), rest)
    ensures ms != [] ==>
              RenderAfter(Some(OnNull), MemberEvents(ms) + rest) == [0x2C] + CompactMembers(ms) + RenderAfter(Some(OnNull), rest)
    decreases ms, 1
  {
    hide Events;
    hide RenderAfter;
    hide Compact;
    hide CompactToken;
    hide DocMember;
    if ms == [] {
      assert [] + rest == rest;
    } else {
      var m, more := ms[0], ms[1..];
      var behind := MemberEvents(more) + rest;
      assert MemberEvents(ms) + rest == [OnKey(m.key.raw)] + (Events(m.val) + behind);
      PairRendered(Some(BeginObject), m, behind);
      PairRendered(Some(OnNull), m, behind);
      MembersRendered(more, rest);
      if more == [] {
        assert behind == rest;
      }
    }
  }

  // ---------------------------------------------------------------- a derived value, wherever it stands

  /** The token is one the grammar derives, wherever it stands. */
  ghost predicate SpelledToken(tok: Token) {
    match tok.kind
    case TString => IsBody(tok.raw) && (tok.esc <==> BACKSLASH in tok.raw)
    case TNumber => Numeral(tok.raw, 0, |tok.raw|) && !tok.esc
    case TTrue => tok == Token(TTrue, [], false)
    case TFalse => tok == Token(TFalse, [], false)
    case TNull => tok == Token(TNull, [], false)
    case _ => false
  }

  ghost predicate Spelled(t: Tree)
    decreases t
  {
    !t.skip &&
    match t
    case Leaf(_, tok) => SpelledToken(tok)
    case Arr(_, items) => forall i :: 0 <= i < |items| ==> Spelled(items[i])
    case Obj(_, ms) => forall i :: 0 <= i < |ms| ==> SpelledMember(ms[i])
  }

  ghost predicate SpelledMember(m: Member)
    decreases m
  {
    !m.keySkip && m.key.kind == TString && SpelledToken(m.key) && (assert m.val < m; Spelled(m.val))
  }

  lemma LeafSpelled(s: bytes, i: nat, j: nat, tok: Token)
    requires DerivesLeaf(s, i, j, tok)
    ensures SpelledToken(tok) && LiteralKind(tok.kind)
  {
    hide IsBody;
    hide Numeral;
    hide Here;
    if DerivesNumber(s, i, j, tok) {
      assert s[i..j] == s[i..j][0..j - i];
      NumeralMoved(s, i, j, s[i..j], 0);
    }
  }

  lemma {:induction false} ValueSpelled(s: bytes, i: nat, j: nat, t: Tree)
    requires DerivesValue(s, i, j, t)
    ensures Spelled(t)
    decreases t, 2
  {
    hide DerivesLeaf;
    hide SpelledToken;
    hide DerivesElements;
    hide DerivesMembers;
    hide SpelledMember;
    hide Ws;
    match t {
      case Leaf(_, tok) => LeafSpelled(s, i, j, tok);
      case Arr(_, items) =>
        if items != [] {
          ElementsSpelled(s, i + 1, j - 1, items);
        }
      case Obj(_, ms) =>
        if ms != [] {
          MembersSpelled(s, i + 1, j - 1, ms);
        }
    }
  }

  lemma {:induction false} ElementsSpelled(s: bytes, i: nat, j: nat, items: seq<Tree>)
    requires items != [] && DerivesElements(s, i, j, items)
    ensures forall k :: 0 <= k < |items| ==> Spelled(items[k])
    decreases items, 1
  {
    hide DerivesValue;
    hide Spelled;
    hide Ws;
    var a: nat, b: nat, c: nat :| Ws(s, i, a) && DerivesValue(s, a, b, items[0]) && Ws(s, b, c) &&
      if |items| == 1 then c == j else ByteAt(s, c, 0x2C) && DerivesElements(s, c + 1, j, items[1..]);
    ValueSpelled(s, a, b, items[0]);
    if |items| > 1 {
      ElementsSpelled(s, c + 1, j, items[1..]);
    }
    forall k | 0 <= k < |items| ensures Spelled(items[k]) {
      assert k > 0 ==> items[k] == items[1..][k - 1];
    }
  }

  lemma {:induction false} MembersSpelled(s: bytes, i: nat, j: nat, ms: seq<Member>)
    requires ms != [] && DerivesMembers(s, i, j, ms)
    ensures forall k :: 0 <= k < |ms| ==> SpelledMember(ms[k])
    decreases ms, 1
  {
    hide DerivesMember;
    hide SpelledMember;
    hide Ws;
    var a: nat, b: nat, c: nat :| Ws(s, i, a) && DerivesMember(s, a, b, ms[0]) && Ws(s, b, c) &&
      if |ms| == 1 then c == j else ByteAt(s, c, 0x2C) && DerivesMembers(s, c + 1, j, ms[1..]);
    MemberSpelled(s, a, b, ms[0]);
    if |ms| > 1 {
      MembersSpelled(s, c + 1, j, ms[1..]);
    }
    forall k | 0 <= k < |ms| ensures SpelledMember(ms[k]) {
      assert k > 0 ==> ms[k] == ms[1..][k - 1];
    }
  }

  lemma {:induction false} MemberSpelled(s: bytes, i: nat, j: nat, m: Member)
    requires DerivesMember(s, i, j, m)
    ensures SpelledMember(m)
    decreases m, 3
  {
    hide DerivesValue;
    hide Spelled;
    hide SpelledToken;
    hide IsBody;
    hide Here;
    hide Ws;
    assert m.val < m;
    var a: nat, b: nat, c: nat :|
      DerivesString(s, i, a, m.key) && Ws(s, a, b) && ByteAt(s, b, 0x3A) && Ws(s, b + 1, c) && DerivesValue(s, c, j, m.val);
    LeafSpelled(s, i, a, m.key);
    ValueSpelled(s, c, j, m.val);
  }

  // ---------------------------------------------------------------- the value without space is derived

  lemma NoSpace(s: bytes, i: nat)
    requires i <= |s|
    ensures Ws(s, i, i)
  {
  }

  lemma HereBound(s: bytes, i: nat, a: bytes)
    requires Here(s, i, a)
    ensures i + |a| <= |s|
    ensures a != [] ==> ByteAt(s, i, a[0]) && ByteAt(s, i + |a| - 1, a[|a| - 1])
  {
    if a != [] {
      assert s[i] == s[i..i + |a|][0] && s[i + |a| - 1] == s[i..i + |a|][|a| - 1];
    }
  }

  lemma LeafCompact(s: bytes, i: nat, tok: Token)
    requires SpelledToken(tok) && Here(s, i, CompactToken(tok))
    ensures DerivesLeaf(s, i, i + |CompactToken(tok)|, tok)
    ensures tok.kind == TString ==> DerivesString(s, i, i + |CompactToken(tok)|, tok)
  {
    hide IsBody;
    hide Numeral;
    if tok.kind == TNumber {
      var raw := tok.raw;
      assert raw[0..|raw|] == raw && s[i..i + |raw|] == raw;
      NumeralMoved(raw, 0, |raw|, s, i);
      assert DerivesNumber(s, i, i + |raw|, tok);
    }
  }

  lemma {:induction false} ValueCompact(s: bytes, i: nat, t: Tree)
    requires Spelled(t) && Here(s, i, Compact(t))
    ensures DerivesValue(s, i, i + |Compact(t)|, t) && i + |Compact(t)| <= |s|
    decreases t, 2
  {
    hide DerivesLeaf;
    hide SpelledToken;
    hide CompactToken;
    hide CompactItems;
    hide CompactMembers;
    hide DerivesElements;
    hide DerivesMembers;
    hide SpelledMember;
    hide Here;
    hide Ws;
    HereBound(s, i, Compact(t));
    match t {
      case Leaf(_, tok) => LeafCompact(s, i, tok);
      case Arr(_, items) =>
        var inner := CompactItems(items);
        Bracketed(s, i, [0x5B], inner, [0x5D]);
        if items == [] {
          NoItems();
          NoSpace(s, i + 1);
        } else {
          ElementsCompact(s, i + 1, items);
        }
      case Obj(_, ms) =>
        var inner := CompactMembers(ms);
        Bracketed(s, i, [0x7B], inner, [0x7D]);
        if ms == [] {
          NoItems();
          NoSpace(s, i + 1);
        } else {
          MembersCompact(s, i + 1, ms);
        }
    }
  }

  lemma Bracketed(s: bytes, i: nat, a: bytes, b: bytes, c: bytes)
    requires |a| == 1 && |c| == 1 && Here(s, i, a + b + c)
    ensures |a + b + c| == |b| + 2 && i + |b| + 2 <= |s|
    ensures ByteAt(s, i, a[0]) && Here(s, i + 1, b) && ByteAt(s, i + 1 + |b|, c[0])
  {
    HereSplit(s, i, a + b, c);
    HereSplit(s, i, a, b);
    HereBound(s, i, a);
    HereBound(s, i + 1 + |b|, c);
  }

  lemma NoItems()
    ensures CompactItems([]) == [] && CompactMembers([]) == []
  {
  }

  lemma {:induction false} ElementsCompact(s: bytes, i: nat, items: seq<Tree>)
    requires items != [] && (forall k :: 0 <= k < |items| ==> Spelled(items[k])) && Here(s, i, CompactItems(items))
    ensures DerivesElements(s, i, i + |CompactItems(items)|, items)
    decreases items, 1
  {
    hide Spelled;
    hide DerivesValue;
    hide Compact;
    hide Here;
    hide Ws;
    var x, more := items[0], items[1..];
    var b := i + |Compact(x)|;
    if |items| > 1 {
      HereSplit(s, i, Compact(x) + [0x2C], CompactItems(more));
      HereSplit(s, i, Compact(x), [0x2C]);
      HereBound(s, b, [0x2C]);
      ElementsCompact(s, b + 1, more);
    }
    ValueCompact(s, i, x);
    NoSpace(s, i);
    NoSpace(s, b);
  }

  lemma {:induction false} MembersCompact(s: bytes, i: nat, ms: seq<Member>)
    requires ms != [] && (forall k :: 0 <= k < |ms| ==> SpelledMember(ms[k])) && Here(s, i, CompactMembers(ms))
    ensures DerivesMembers(s, i, i + |CompactMembers(ms)|, ms)
    decreases ms, 1
  {
    hide SpelledMember;
    hide DerivesMember;
    hide Compact;
    hide CompactToken;
    hide Here;
    hide Ws;
    var m, more := ms[0], ms[1..];
    assert m.val < m;
    var first := CompactToken(m.key) + [0x3A] + Compact(m.val);
    var b := i + |first|;
    if |ms| > 1 {
      HereSplit(s, i, first + [0x2C], CompactMembers(more));
      HereSplit(s, i, first, [0x2C]);
      HereBound(s, b, [0x2C]);
      MembersCompact(s, b + 1, more);
    }
    MemberCompact(s, i, m);
    NoSpace(s, i);
    NoSpace(s, b);
  }

  lemma {:induction false} MemberCompact(s: bytes, i: nat, m: Member)
    requires SpelledMember(m) && Here(s, i, CompactToken(m.key) + [0x3A] + Compact(m.val))
    ensures var j := i + |CompactToken(m.key) + [0x3A] + Compact(m.val)|; DerivesMember(s, i, j, m) && j <= |s|
    decreases m, 3
  {
    hide Spelled;
    hide SpelledToken;
    hide DerivesValue;
    hide DerivesString;
    hide Compact;
    hide CompactToken;
    hide Here;
    hide Ws;
    assert m.val < m;
    var key := CompactToken(m.key);
    var a := i + |key|;
    HereSplit(s, i, key + [0x3A], Compact(m.val));
    HereSplit(s, i, key, [0x3A]);
    HereBound(s, a, [0x3A]);
    LeafCompact(s, i, m.key);
    ValueCompact(s, a + 1, m.val);
    NoSpace(s, a);
    NoSpace(s, a + 1);
  }

  // ---------------------------------------------------------------- the events as a text

  lemma FirstByteAscii(t: Tree)
    requires Spelled(t)
    ensures Compact(t) != [] && Compact(t)[0] < 0x80
  {
    hide IsBody;
    if t.Leaf? && t.tok.kind == TNumber {
      var raw := t.tok.raw;
      var a: nat, b: nat, c: nat :| SplitAt(raw, 0, a, b, c, |raw|);
    }
  }

  lemma NothingBehind(e: Event)
    ensures RenderAfter(Some(e), []) == []
  {
  }

  lemma {:induction false} SpelledDoc(t: Tree)
    requires Spelled(t)
    ensures Doc(t)
    decreases t
  {
    hide IsBody;
    hide Numeral;
    if t.Arr? {
      forall i | 0 <= i < |t.items| ensures Doc(t.items[i]) {
        SpelledDoc(t.items[i]);
      }
    }
    if t.Obj? {
      forall i | 0 <= i < |t.members| ensures DocMember(t.members[i]) {
        assert t.members[i].val < t.members[i];
        assert SpelledMember(t.members[i]);
        SpelledDoc(t.members[i].val);
      }
    }
  }

  /** The events of a text, written out again, are a text of the same value. */
  lemma RenderedText(src: bytes, t: Tree)
    requires IsTextOf(src, t)
    ensures IsTextOf(Render(Events(t)), t)
  {
    hide *;
    TextMeans(src, t);
    var a, b := TextSplit(src, StartOf(src), t);
    ValueSpelled(src, a, b, t);
    SpelledDoc(t);
    RenderedIs(t);
    var text := Compact(t);
    FirstByteAscii(t);
    StartsAtOnce(text);
    assert text[0..0 + |text|] == text;
    IsHere(text);
    ValueCompact(text, 0, t);
    NoSpace(text, 0);
    NoSpace(text, |text|);
    MakeText(text, 0, 0, |text|, t);
    TextMeans(text, t);
  }

  lemma StartsAtOnce(s: bytes)
    requires s != [] && s[0] < 0x80
    ensures StartOf(s) == 0
  {
  }

  lemma IsHere(s: bytes)
    ensures Here(s, 0, s)
  {
  }

  lemma RenderedIs(t: Tree)
    requires Doc(t)
    ensures Render(Events(t)) == Compact(t)
  {
    hide *;
    TreeRendered(None, t, []);
    NothingBehind(OnNull);
    assert Events(t) + [] == Events(t);
    RenderIs(Events(t));
    NothingBefore();
    assert [] + Compact(t) + [] == Compact(t);
  }

  lemma NothingBefore()
    ensures Before(None) == []
  {
  }

  lemma RenderIs(es: seq<Event>)
    ensures Render(es) == RenderAfter(None, es)
  {
    hide RenderAfter;
  }
}
