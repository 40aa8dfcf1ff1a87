/** The callbacks of the event parser (src/parser/sax.c) as events, and how deep it counts. */
module SaxEvents {
  import opened Bytes
  import opened Ast
  import opened Grammar

  datatype Event =
    | OnNull | OnBoolean(b: bool) | OnNumber(raw: bytes) | OnString(raw: bytes) | OnKey(raw: bytes)
    | BeginObject | EndObject | BeginArray | EndArray

  function LeafEvent(t: Token): Event {
    match t.kind
    case TNull => OnNull
    case TTrue => OnBoolean(true)
    case TFalse => OnBoolean(false)
    case TNumber => OnNumber(t.raw)
    case _ => OnString(t.raw)
  }

  /** The events of a value, in document order. */
  function Events(t: Tree): seq<Event>
    decreases t
  {
    match t
    case Leaf(_, tok) => [LeafEvent(tok)]
    case Arr(_, items) => [BeginArray] + ItemEvents(items) + [EndArray]
    case Obj(_, ms) => [BeginObject] + MemberEvents(ms) + [EndObject]
  }

  function ItemEvents(items: seq<Tree>): seq<Event>
    decreases items
  {
    if items == [] then [] else Events(items[0]) + ItemEvents(items[1..])
  }

  function MemberEvents(ms: seq<Member>): seq<Event>
    decreases ms
  {
    if ms == [] then [] else assert ms[0].val < ms[0]; [OnKey(ms[0].key.raw)] + Events(ms[0].val) + MemberEvents(ms[1..])
  }

  /** How many containers the most deeply nested value lies in. */
  function ValueDepth(t: Tree): nat
    decreases t
  {
    match t
    case Leaf(_, _) => 0
    case Arr(_, items) => DepthItems(items)
    case Obj(_, ms) => DepthMembers(ms)
  }

  function DepthItems(items: seq<Tree>): nat
    decreases items
  {
    if items == [] then 0
    else Max(1 + ValueDepth(items[0]), DepthItems(items[1..]))
  }

  function DepthMembers(ms: seq<Member>): nat
    decreases ms
  {
    if ms == [] then 0
    else
      assert ms[0].val < ms[0];
      Max(1 + ValueDepth(ms[0].val), DepthMembers(ms[1..]))
  }

  const MAX_SAX_DEPTH: nat := 64

  function Max(a: nat, b: nat): nat { if a < b then b else a }

  lemma ItemsCons(x: Tree, rest: seq<Tree>)
    ensures ItemEvents([x] + rest) == Events(x) + ItemEvents(rest)
    ensures DepthItems([x] + rest) == Max(1 + ValueDepth(x), DepthItems(rest))
    ensures ItemEvents([]) == [] && DepthItems([]) == 0
  {
    hide Events;
    hide ValueDepth;
    assert ([x] + rest)[1..] == rest;
  }

  lemma MembersCons(m: Member, rest: seq<Member>)
    ensures MemberEvents([m] + rest) == [OnKey(m.key.raw)] + Events(m.val) + MemberEvents(rest)
    ensures DepthMembers([m] + rest) == Max(1 + ValueDepth(m.val), DepthMembers(rest))
    ensures MemberEvents([]) == [] && DepthMembers([]) == 0
  {
    hide Events;
    hide ValueDepth;
    assert ([m] + rest)[1..] == rest && ([m] + rest)[0] == m;
  }

  lemma {:induction false} ItemEventsAppend(a: seq<Tree>, b: seq<Tree>)
    ensures ItemEvents(a + b) == ItemEvents(a) + ItemEvents(b)
    ensures DepthItems(a + b) == Max(DepthItems(a), DepthItems(b))
  {
    hide ItemEvents;
    hide DepthItems;
    hide Events;
    hide ValueDepth;
    ItemsCons(Leaf(false, COMMA), []);
    if a == [] {
      assert a + b == b;
    } else {
      var x, rest := a[0], a[1..];
      ItemEventsAppend(rest, b);
      assert a == [x] + rest && a + b == [x] + (rest + b);
      ItemsCons(x, rest);
      ItemsCons(x, rest + b);
      Regroup(Events(x), ItemEvents(rest), ItemEvents(b));
    }
  }

  lemma {:induction false} MemberEventsAppend(a: seq<Member>, b: seq<Member>)
    ensures MemberEvents(a + b) == MemberEvents(a) + MemberEvents(b)
    ensures DepthMembers(a + b) == Max(DepthMembers(a), DepthMembers(b))
  {
    hide MemberEvents;
    hide DepthMembers;
    hide Events;
    hide ValueDepth;
    MembersCons(Member(COMMA, false, Leaf(false, COMMA)), []);
    if a == [] {
      assert a + b == b;
    } else {
      var m, rest := a[0], a[1..];
      MemberEventsAppend(rest, b);
      assert a == [m] + rest && a + b == [m] + (rest + b);
      MembersCons(m, rest);
      MembersCons(m, rest + b);
      Regroup([OnKey(m.key.raw)] + Events(m.val), MemberEvents(rest), MemberEvents(b));
    }
  }

  lemma SingleItem(x: Tree)
    ensures ItemEvents([x]) == Events(x) && DepthItems([x]) == 1 + ValueDepth(x)
    ensures ItemEvents([]) == [] && DepthItems([]) == 0
  {
    hide Events;
    hide ValueDepth;
    assert [x][1..] == [];
    assert Events(x) + [] == Events(x);
  }

  lemma SingleMember(m: Member)
    ensures MemberEvents([m]) == [OnKey(m.key.raw)] + Events(m.val) && DepthMembers([m]) == 1 + ValueDepth(m.val)
    ensures MemberEvents([]) == [] && DepthMembers([]) == 0
  {
    hide Events;
    hide ValueDepth;
    assert [m][1..] == [];
    assert [OnKey(m.key.raw)] + Events(m.val) + [] == [OnKey(m.key.raw)] + Events(m.val);
  }
}
