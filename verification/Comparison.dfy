/** The two parsers compared (src/parser/parser.c, src/parser/sax.c): which texts only one of
    them accepts, and how the events can be read off the node pool. */
module Comparison {
  import opened Bytes
  import opened Ast
  import opened Unescape
  import opened Lexing
  import opened Grammar
  import opened KeyTree
  import opened KeySet
  import opened PoolShape
  import opened PoolBuilt
  import opened KeyOrder
  import opened Parsing
  import opened Parser
  import opened TextGrammar
  import opened TextTokens
  import opened Frontend
  import opened SaxEvents
  import opened Sax

  // ---------------------------------------------------------------- containers inside containers

  /** `c` is a container of `t` that lies inside exactly `d` others. */
  ghost predicate Inside(t: Tree, d: nat, c: Tree)
    decreases d
  {
    match t
    case Leaf(_, _) => false
    case Arr(_, items) =>
      if d == 0 then c == t else exists i :: 0 <= i < |items| && Inside(items[i], d - 1, c)
    case Obj(_, ms) =>
      if d == 0 then c == t else exists i :: 0 <= i < |ms| && Inside(ms[i].val, d - 1, c)
  }

  predicate Hollow(c: Tree) {
    (c.Arr? && c.items == []) || (c.Obj? && c.members == [])
  }

  /** Some container lies inside 64 others, none lies deeper, and all inside 64 are empty. */
  ghost predicate HollowAtLimit(t: Tree) {
    && (exists c: Tree :: Inside(t, 64, c))
    && (forall d: nat, c: Tree :: d > 64 ==> !Inside(t, d, c))
    && (forall c: Tree :: Inside(t, 64, c) ==> Hollow(c))
  }

  lemma {:induction false} NestingOver(items: seq<Tree>, n: nat)
    ensures NestingItems(items) > n <==> exists i :: 0 <= i < |items| && Nesting(items[i]) > n
    ensures DepthItems(items) > n <==> exists i :: 0 <= i < |items| && 1 + ValueDepth(items[i]) > n
  {
    hide Nesting;
    hide ValueDepth;
    if items != [] {
      var rest := items[1..];
      NestingOver(rest, n);
      assert forall i :: 0 <= i < |rest| ==> rest[i] == items[i + 1];
      assert forall i :: 1 <= i < |items| ==> items[i] == rest[i - 1];
    }
  }

  lemma {:induction false} NestingOverMembers(ms: seq<Member>, n: nat)
    ensures NestingMembers(ms) > n <==> exists i :: 0 <= i < |ms| && Nesting(ms[i].val) > n
    ensures DepthMembers(ms) > n <==> exists i :: 0 <= i < |ms| && 1 + ValueDepth(ms[i].val) > n
  {
    hide Nesting;
    hide ValueDepth;
    if ms != [] {
      var rest := ms[1..];
      NestingOverMembers(rest, n);
      assert forall i :: 0 <= i < |rest| ==> rest[i] == ms[i + 1];
      assert forall i :: 1 <= i < |ms| ==> ms[i] == rest[i - 1];
    }
  }

  ghost predicate Deep(t: Tree, d: nat) { exists c: Tree :: Inside(t, d, c) }

  ghost predicate DeepFilled(t: Tree, d: nat) { exists c: Tree :: Inside(t, d, c) && !Hollow(c) }

  /** Nesting counts containers; the depth of values counts those that hold something. */
  lemma {:induction false} DepthsMean(t: Tree, d: nat)
    ensures Nesting(t) > d <==> Deep(t, d)
    ensures ValueDepth(t) > d <==> DeepFilled(t, d)
    decreases d
  {
    hide NestingItems;
    hide NestingMembers;
    hide DepthItems;
    hide DepthMembers;
    match t {
      case Leaf(_, _) =>
      case Arr(_, items) =>
        if d == 0 {
          assert Inside(t, 0, t);
          NestingOver(items, 0);
          if items != [] {
            assert 1 + ValueDepth(items[0]) > 0;
          }
        } else {
          NestingOver(items, d - 1);
          NestingOver(items, d);
          forall i | 0 <= i < |items|
            ensures Nesting(items[i]) > d - 1 <==> Deep(items[i], d - 1)
            ensures ValueDepth(items[i]) > d - 1 <==> DeepFilled(items[i], d - 1)
          {
            DepthsMean(items[i], d - 1);
          }
          DeepItems(t, d);
        }
      case Obj(_, ms) =>
        if d == 0 {
          assert Inside(t, 0, t);
          NestingOverMembers(ms, 0);
          if ms != [] {
            assert 1 + ValueDepth(ms[0].val) > 0;
          }
        } else {
          NestingOverMembers(ms, d - 1);
          NestingOverMembers(ms, d);
          forall i | 0 <= i < |ms|
            ensures Nesting(ms[i].val) > d - 1 <==> Deep(ms[i].val, d - 1)
            ensures ValueDepth(ms[i].val) > d - 1 <==> DeepFilled(ms[i].val, d - 1)
          {
            DepthsMean(ms[i].val, d - 1);
          }
          DeepMembers(t, d);
        }
    }
  }

  lemma DeepItems(t: Tree, d: nat)
    requires t.Arr? && d > 0
    ensures Deep(t, d) <==> exists i :: 0 <= i < |t.items| && Deep(t.items[i], d - 1)
    ensures DeepFilled(t, d) <==> exists i :: 0 <= i < |t.items| && DeepFilled(t.items[i], d - 1)
  {
    hide Hollow;
    InsideItems(t, d);
    if i :| 0 <= i < |t.items| && Deep(t.items[i], d - 1) {
      var c :| Inside(t.items[i], d - 1, c);
      assert Inside(t, d, c);
    }
    if i :| 0 <= i < |t.items| && DeepFilled(t.items[i], d - 1) {
      var c :| Inside(t.items[i], d - 1, c) && !Hollow(c);
      assert Inside(t, d, c);
    }
  }

  lemma InsideItems(t: Tree, d: nat)
    requires t.Arr? && d > 0
    ensures forall c :: Inside(t, d, c) <==> exists i :: 0 <= i < |t.items| && Inside(t.items[i], d - 1, c)
  {
  }

  lemma DeepMembers(t: Tree, d: nat)
    requires t.Obj? && d > 0
    ensures Deep(t, d) <==> exists i :: 0 <= i < |t.members| && Deep(t.members[i].val, d - 1)
    ensures DeepFilled(t, d) <==> exists i :: 0 <= i < |t.members| && DeepFilled(t.members[i].val, d - 1)
  {
    hide Hollow;
    InsideMembers(t, d);
    if i :| 0 <= i < |t.members| && Deep(t.members[i].val, d - 1) {
      var c :| Inside(t.members[i].val, d - 1, c);
      assert Inside(t, d, c);
    }
    if i :| 0 <= i < |t.members| && DeepFilled(t.members[i].val, d - 1) {
      var c :| Inside(t.members[i].val, d - 1, c) && !Hollow(c);
      assert Inside(t, d, c);
    }
  }

  lemma InsideMembers(t: Tree, d: nat)
    requires t.Obj? && d > 0
    ensures forall c :: Inside(t, d, c) <==> exists i :: 0 <= i < |t.members| && Inside(t.members[i].val, d - 1, c)
  {
  }

  /** The depth tests of the two parsers disagree exactly on these values, and then it is
      the streaming parser that accepts. */
  lemma DepthTestsDiffer(t: Tree)
    ensures Nesting(t) <= 64 ==> ValueDepth(t) <= 64
    ensures ValueDepth(t) <= 64 && Nesting(t) > 64 <==> HollowAtLimit(t)
  {
    hide Inside;
    hide Hollow;
    hide Nesting;
    hide ValueDepth;
    DepthsMean(t, 64);
    DepthsMean(t, 65);
    forall d: nat ensures Nesting(t) > d <==> Deep(t, d) {
      DepthsMean(t, d);
    }
    DepthsClose(t);
    assert Deep(t, 64) <==> Nesting(t) > 64;
    assert DeepFilled(t, 64) <==> ValueDepth(t) > 64;
    if ValueDepth(t) <= 64 && Nesting(t) > 64 {
      forall d: nat, c: Tree | d > 64 ensures !Inside(t, d, c) {
        assert !Deep(t, d);
      }
    }
  }

  lemma {:induction false} DepthsClose(t: Tree)
    ensures ValueDepth(t) <= Nesting(t) <= ValueDepth(t) + 1
    decreases t, 1
  {
    match t {
      case Leaf(_, _) =>
      case Arr(_, items) => DepthsCloseItems(items);
      case Obj(_, ms) => DepthsCloseMembers(ms);
    }
  }

  lemma {:induction false} DepthsCloseItems(items: seq<Tree>)
    ensures DepthItems(items) <= 1 + NestingItems(items) && NestingItems(items) <= DepthItems(items)
    decreases items, 0
  {
    if items != [] {
      DepthsClose(items[0]);
      DepthsCloseItems(items[1..]);
    }
  }

  lemma {:induction false} DepthsCloseMembers(ms: seq<Member>)
    ensures DepthMembers(ms) <= 1 + NestingMembers(ms) && NestingMembers(ms) <= DepthMembers(ms)
    decreases ms, 0
  {
    if ms != [] {
      assert ms[0].val < ms[0];
      DepthsClose(ms[0].val);
      DepthsCloseMembers(ms[1..]);
    }
  }

  // ---------------------------------------------------------------- a text they differ on

  /** 65 opening and 65 closing brackets. */
  const BRACKETS: bytes := seq(65, _ => 91) + seq(65, _ => 93)

  /** `n` arrays around an empty array. */
  function Nest(n: nat): Tree {
    if n == 0 then Arr(false, []) else Arr(false, [Nest(n - 1)])
  }

  lemma {:induction false} NestDepths(n: nat)
    ensures ValueDepth(Nest(n)) == n && Nesting(Nest(n)) == n + 1 && PairedValue(Nest(n))
  {
    if n > 0 {
      NestDepths(n - 1);
      SaxEvents.ItemsCons(Nest(n - 1), []);
      assert [Nest(n - 1)] + [] == [Nest(n - 1)];
      assert [Nest(n - 1)][1..] == [] && NestingItems([]) == 0;
      assert NestingItems([Nest(n - 1)]) == Nesting(Nest(n - 1));
    }
  }

  lemma {:induction false} NestDerived(n: nat)
    requires n <= 64
    ensures DerivesValue(BRACKETS, 64 - n, 66 + n, Nest(n))
  {
    var s := BRACKETS;
    var i, j := 64 - n, 66 + n;
    assert s[i] == 91 && s[j - 1] == 93;
    if n > 0 {
      NestDerived(n - 1);
      var items := [Nest(n - 1)];
      EmptyWs(s, i + 1);
      EmptyWs(s, j - 1);
      assert Ws(s, i + 1, i + 1) && DerivesValue(s, i + 1, j - 1, items[0]) && Ws(s, j - 1, j - 1);
      assert DerivesElements(s, i + 1, j - 1, items);
    }
  }

  /** The streaming parser accepts this text, the other refuses it. */
  lemma ParsersDiffer()
    ensures exists t: Tree :: IsTextOf(BRACKETS, t) && ValueDepth(t) <= MAX_SAX_DEPTH && HollowAtLimit(t)
    ensures forall t: Tree :: IsTextOf(BRACKETS, t) ==> Nesting(t) > MAX_DEPTH
  {
    hide *;
    BracketsText();
    var t := Nest(64);
    NestDepths(64);
    Limits();
    DepthTestsDiffer(t);
    forall u: Tree | IsTextOf(BRACKETS, u) ensures u == t {
      TextUnique(BRACKETS, t, u);
    }
  }

  lemma Limits()
    ensures MAX_DEPTH == 64 && MAX_SAX_DEPTH == 64
  {
  }

  lemma BracketsText()
    ensures IsTextOf(BRACKETS, Nest(64))
  {
    hide DerivesValue;
    hide Nest;
    hide PairedValue;
    NestDerived(64);
    NestDepths(64);
    assert BRACKETS[0] == 91;
    MakeText(BRACKETS, 0, 0, 130, Nest(64));
  }

  // ---------------------------------------------------------------- events of the pool

  /** The events of pool node `i` and what is below it, read by token kind along the links;
      whether a node is marked as skipped does not matter. */
  function PoolEvents(pool: seq<Node>, i: int): seq<Event>
    decreases |pool| - i, 0
  {
    if !(0 <= i < |pool|) then []
    else
      var c := pool[i].firstChild;
      match pool[i].tok.kind
      case TBraceOpen => [BeginObject] + (if c > i then PoolMemberEvents(pool, c) else []) + [EndObject]
      case TBracketOpen => [BeginArray] + (if c > i then PoolItemEvents(pool, c) else []) + [EndArray]
      case _ => [LeafEvent(pool[i].tok)]
  }

  function PoolItemEvents(pool: seq<Node>, c: int): seq<Event>
    decreases |pool| - c, 1
  {
    if !(0 <= c < |pool|) then []
    else
      var next := pool[c].nextSibling;
      PoolEvents(pool, c) + (if next > c then PoolItemEvents(pool, next) else [])
  }

  /** A key node, the value beside it, and so on. */
  function PoolMemberEvents(pool: seq<Node>, k: int): seq<Event>
    decreases |pool| - k, 1
  {
    if !(0 <= k < |pool|) then []
    else
      var v := pool[k].nextSibling;
      [OnKey(pool[k].tok.raw)] +
      if !(k < v < |pool|) then []
      else
        var next := pool[v].nextSibling;
        PoolEvents(pool, v) + (if next > v then PoolMemberEvents(pool, next) else [])
  }

  /** The events of a value are read off any pool that holds it, duplicates included. */
  lemma {:induction false} EventsOfPool(pool: seq<Node>, i: nat, at: nat, t: Tree, skip: bool)
    requires At(pool, i, Marked(at, t, skip)) && Doc(t)
    ensures PoolEvents(pool, i) == Events(t)
    decreases t, 1
  {
    hide MarkedItems;
    hide MarkedMembers;
    hide ItemEvents;
    hide MemberEvents;
    hide ItemsAt;
    hide MembersAt;
    hide PoolItemEvents;
    hide PoolMemberEvents;
    match t {
      case Leaf(_, tok) =>
      case Arr(_, items) =>
        SaxEvents.ItemsCons(t, []);
        if items != [] {
          EventsOfItems(pool, i + 1, at + 1, items);
        }
      case Obj(_, ms) =>
        SaxEvents.MembersCons(Member(COMMA, false, t), []);
        if ms != [] {
          EventsOfMembers(pool, i + 1, at, at + 1, ms, {});
        }
    }
  }

  lemma {:induction false} EventsOfItems(pool: seq<Node>, i: nat, pos: nat, items: seq<Tree>)
    requires items != [] && ItemsAt(pool, i, MarkedItems(pos, items)) && forall k :: 0 <= k < |items| ==> Doc(items[k])
    ensures PoolItemEvents(pool, i) == ItemEvents(items)
    decreases items, 0
  {
    hide Events;
    hide Marked;
    hide At;
    hide Doc;
    hide PoolEvents;
    hide Len;
    var x, rest := items[0], items[1..];
    var mx := Marked(pos, x, false);
    var more := MarkedItems(pos + Len(x), rest);
    assert MarkedItems(pos, items) == [mx] + more;
    assert ([mx] + more)[0] == mx && ([mx] + more)[1..] == more;
    AtNode(pool, i, mx);
    EventsOfPool(pool, i, pos, x, false);
    SaxEvents.ItemsCons(x, rest);
    assert items == [x] + rest;
    if rest != [] {
      EventsOfItems(pool, i + Len(mx), pos + Len(x), rest);
    }
  }

  lemma AtNode(pool: seq<Node>, i: nat, t: Tree)
    requires At(pool, i, t)
    ensures i < |pool| && Len(t) >= 1
  {
  }

  lemma MarkedCons(parent: nat, pos: nat, ms: seq<Member>, seen: set<bytes>)
    requires ms != []
    ensures var text := KeyText(ms[0].key);
            var dup := IsDuplicate(parent, text, seen);
            MarkedMembers(parent, pos, ms, seen)
            == [Member(ms[0].key, dup, Marked(pos + 1, ms[0].val, dup))]
               + MarkedMembers(parent, pos + 1 + Len(ms[0].val), ms[1..], seen + {text})
  {
    hide Marked;
    hide Len;
    hide IsDuplicate;
    hide KeyText;
  }

  lemma MembersAtHead(pool: seq<Node>, i: nat, m: Member, more: seq<Member>)
    requires MembersAt(pool, i, [m] + more)
    ensures i + 1 < |pool| && pool[i].tok == m.key && pool[i].nextSibling == i + 1 && At(pool, i + 1, m.val)
    ensures if more == [] then pool[i + 1].nextSibling == -1
            else pool[i + 1].nextSibling == i + 1 + Len(m.val) > i + 1 && MembersAt(pool, i + 1 + Len(m.val), more)
  {
    hide At;
    hide Len;
    assert ([m] + more)[0] == m && ([m] + more)[1..] == more;
    AtNode(pool, i + 1, m.val);
  }

  lemma PoolMemberStep(pool: seq<Node>, k: nat)
    requires k + 1 < |pool| && pool[k].nextSibling == k + 1
    ensures var next := pool[k + 1].nextSibling;
            PoolMemberEvents(pool, k)
            == [OnKey(pool[k].tok.raw)] + (PoolEvents(pool, k + 1) + (if next > k + 1 then PoolMemberEvents(pool, next) else []))
  {
    hide PoolEvents;
  }

  lemma {:induction false} EventsOfMembers(pool: seq<Node>, i: nat, parent: nat, pos: nat, ms: seq<Member>, seen: set<bytes>)
    requires ms != [] && MembersAt(pool, i, MarkedMembers(parent, pos, ms, seen)) && forall k :: 0 <= k < |ms| ==> DocMember(ms[k])
    ensures PoolMemberEvents(pool, i) == MemberEvents(ms)
    decreases ms, 0
  {
    hide *;
    DocMemberParts(ms[0]);
    var m, rest := ms[0], ms[1..];
    var text := KeyText(m.key);
    var dup := IsDuplicate(parent, text, seen);
    assert m.val < m;
    var mm := Member(m.key, dup, Marked(pos + 1, m.val, dup));
    var more := MarkedMembers(parent, pos + 1 + Len(m.val), rest, seen + {text});
    MarkedCons(parent, pos, ms, seen);
    assert |more| == |rest|;
    MembersAtHead(pool, i, mm, more);
    EventsOfPool(pool, i + 1, pos + 1, m.val, dup);
    PoolMemberStep(pool, i);
    SaxEvents.MembersCons(m, rest);
    assert ms == [m] + rest;
    if rest != [] {
      EventsOfMembers(pool, i + 1 + Len(mm.val), parent, pos + 1 + Len(m.val), rest, seen + {text});
    }
  }

  // ---------------------------------------------------------------- both parsers on one text

  /** What one parser accepts the other does, with the same events, except that only the
      streaming parser accepts a text with empty containers just beyond the limit. */
  method ParseBoth(src: bytes, keySet: Set, keyTree: KeyTreePool)
    returns (dom: bool, b: Builder, sax: bool, events: seq<Event>)
    requires keySet.Valid() && keySet.Contents() == {} && keyTree.nodes == []
    requires RoomFor(src, keySet.entries.Length)
    modifies keySet, keySet.entries, keyTree
    ensures dom <==> exists t: Tree :: IsTextOf(src, t) && Nesting(t) <= 64
    ensures dom ==> sax && events == PoolEvents(b.nodes, 0)
    ensures dom != sax <==> exists t: Tree :: IsTextOf(src, t) && HollowAtLimit(t)
  {
    hide *;
    Limits();
    dom, b := ParseText(src, keySet, keyTree);
    sax, events := ParseSax(src);
    forall t: Tree | IsTextOf(src, t)
      ensures Nesting(t) <= 64 ==> ValueDepth(t) <= 64
      ensures ValueDepth(t) <= 64 && Nesting(t) > 64 <==> HollowAtLimit(t)
      ensures forall u: Tree :: IsTextOf(src, u) ==> u == t
      ensures dom ==> events == PoolEvents(b.nodes, 0)
    {
      DepthTestsDiffer(t);
      forall u: Tree | IsTextOf(src, u) ensures u == t {
        TextUnique(src, t, u);
      }
      if dom {
        TextDoc(src, t);
        EventsOfPool(b.nodes, 0, 0, t, false);
      }
    }
  }
}
