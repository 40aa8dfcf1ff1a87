/** Tokens, the flat node pool, and the trees it stands for. */
module Ast {
  import opened Bytes

  datatype TokenType =
    | TError | TEof | TColon | TComma
    | TBraceOpen | TBraceClose | TBracketOpen | TBracketClose
    | TString | TNumber | TNull | TTrue | TFalse

  /** The kinds of token that are values by themselves. */
  predicate LiteralKind(k: TokenType) {
    k == TString || k == TNumber || k == TNull || k == TTrue || k == TFalse
  }

  /** A token with the slice of the source it covers: the text between the quotes for a
      string, the whole numeral for a number, nothing for the three literals. */
  datatype Token = Token(kind: TokenType, raw: bytes, esc: bool)

  datatype NodeKind = AstLeaf | AstObject | AstArray | AstSkipped

  datatype Node = Node(tok: Token, parent: int, kind: NodeKind,
                       firstChild: int, nextSibling: int, keyTreeRoot: int)

  /** A parsed value. `skip` marks the value of a duplicate key. */
  datatype Tree =
    | Leaf(skip: bool, tok: Token)
    | Arr(skip: bool, items: seq<Tree>)
    | Obj(skip: bool, members: seq<Member>)

  datatype Member = Member(key: Token, keySkip: bool, val: Tree)

  const BraceToken := Token(TBraceOpen, [123], false)
  const BracketToken := Token(TBracketOpen, [91], false)

  function TokenOf(t: Tree): Token {
    match t
    case Leaf(_, tok) => tok
    case Arr(_, _) => BracketToken
    case Obj(_, _) => BraceToken
  }

  function KindOf(t: Tree): NodeKind {
    if t.skip then AstSkipped
    else match t
      case Leaf(_, _) => AstLeaf
      case Arr(_, _) => AstArray
      case Obj(_, _) => AstObject
  }

  /** Number of pool nodes a value takes: a key node goes before each member's value. */
  function Len(t: Tree): (n: nat)
    ensures n >= 1
  {
    match t
    case Leaf(_, _) => 1
    case Arr(_, items) => 1 + ItemsLen(items)
    case Obj(_, members) => 1 + MembersLen(members)
  }

  function ItemsLen(items: seq<Tree>): (n: nat)
    ensures n >= |items|
  {
    if items == [] then 0 else Len(items[0]) + ItemsLen(items[1..])
  }

  function MembersLen(ms: seq<Member>): (n: nat)
    ensures n >= 2 * |ms|
  {
    if ms == [] then 0 else assert ms[0].val < ms[0]; 1 + Len(ms[0].val) + MembersLen(ms[1..])
  }

  /** Node `i` of the pool is the root of `t`, laid out in preorder with its links. The
      root's own sibling link belongs to its parent. */
  ghost predicate At(pool: seq<Node>, i: nat, t: Tree)
    decreases t
  {
    && i < |pool|
    && pool[i].kind == KindOf(t)
    && pool[i].tok == TokenOf(t)
    && match t
       case Leaf(_, _) => pool[i].firstChild == -1
       case Arr(_, items) =>
         && pool[i].firstChild == (if items == [] then -1 else i + 1)
         && ItemsAt(pool, i + 1, items)
       case Obj(_, members) =>
         && pool[i].firstChild == (if members == [] then -1 else i + 1)
         && MembersAt(pool, i + 1, members)
  }

  ghost predicate ItemsAt(pool: seq<Node>, i: nat, items: seq<Tree>)
    decreases items
  {
    items == [] ||
    (&& At(pool, i, items[0])
     && pool[i].nextSibling == (if |items| == 1 then -1 else i + Len(items[0]))
     && ItemsAt(pool, i + Len(items[0]), items[1..]))
  }

  ghost predicate KeyAt(pool: seq<Node>, i: nat, m: Member) {
    && i < |pool|
    && pool[i].kind == (if m.keySkip then AstSkipped else AstLeaf)
    && pool[i].tok == m.key
    && pool[i].firstChild == -1
    && pool[i].nextSibling == i + 1
  }

  ghost predicate MembersAt(pool: seq<Node>, i: nat, ms: seq<Member>)
    decreases ms
  {
    ms == [] ||
    (&& KeyAt(pool, i, ms[0])
     && (assert ms[0].val < ms[0]; At(pool, i + 1, ms[0].val))
     && pool[i + 1].nextSibling == (if |ms| == 1 then -1 else i + 1 + Len(ms[0].val))
     && MembersAt(pool, i + 1 + Len(ms[0].val), ms[1..]))
  }
}
