/** The schema compiler: pass 2 over the whole schema tree, and `compile_schema`
    (src/validation/schema.c). */
module Compiler {
  import opened Bytes
  import opened Ast
  import opened Keywords
  import opened Semantics
  import opened Layout
  import opened Code
  import opened Sizes
  import opened Agreement
  import opened PoolSizes
  import opened Walk
  import opened Cover
  import opened Placement
  import opened Pass1
  import opened Writer
  import opened NodeEmission

  // ---------------------------------------------------------------- sizes along the recursion

  lemma {:induction false} UpToGrows(t: Tree, k: nat, n: nat)
    requires k <= n <= |Visits(t)|
    ensures Size1UpTo(t, k) <= Size1UpTo(t, n) && Data1UpTo(t, k) <= Data1UpTo(t, n)
  {
    hide *;
    if k < n {
      UpToGrows(t, k, n - 1);
      SizesStep(t, n - 1);
    }
  }

  lemma Size2Step(env: Env, t: Tree, k: nat)
    requires k < |Visits(t)|
    ensures Size2UpTo(env, t, k + 1) == Size2UpTo(env, t, k) + Size2(env, Visit(t, k).sub)
    ensures Data2UpTo(env, t, k + 1) == Data2UpTo(env, t, k) + Data2(env, Visit(t, k).sub)
    ensures Size2UpTo(env, t, 0) == 0 && Data2UpTo(env, t, 0) == 0
  {
    hide Visits;
    hide Size2;
    hide Data2;
    hide Visit;
  }

  lemma Size2Start(env: Env, t: Tree)
    ensures Size2UpTo(env, t, 0) == 0 && Data2UpTo(env, t, 0) == 0
    ensures Size2(env, t) == NodeLen(env, t) + Size2UpTo(env, t, |Visits(t)|)
    ensures Data2(env, t) == NodeData(env, t) + Data2UpTo(env, t, |Visits(t)|)
  {
    hide Visits;
    hide NodeLen;
    hide NodeData;
  }

  /** There is room for the node itself. */
  lemma RoomForNode(t: Tree)
    ensures NodeSize(t) <= Size1(t) && NodeReserve(t) <= Data1(t)
  {
    hide *;
    SizesDone(t);
  }

  /** Before visiting subschema `k` there is room for it. */
  lemma RoomForSub(env: Env, t: Tree, k: nat)
    requires k < |Visits(t)| && WfTree(t)
    ensures NodeLen(env, t) + Size2UpTo(env, t, k) + Size1(Visit(t, k).sub) <= Size1(t)
    ensures NodeData(env, t) + Data2UpTo(env, t, k) + Data1(Visit(t, k).sub) <= Data1(t)
  {
    hide *;
    NodeAgrees(env, t);
    NodeDataFits(env, t);
    VisitsAgree(env, t, k);
    PoolFitsVisits(env, t, k);
    SizesStep(t, k);
    UpToGrows(t, k + 1, |Visits(t)|);
    SizesDone(t);
  }

  // ---------------------------------------------------------------- what stands where

  /** The block of `t` and those of its first `k` subschemas stand where pass 1 put them, and
      the next one starts at the code cursor. */
  ghost predicate PlacedSoFar(env: Env, code: bytes, pool: bytes, offs: seq<nat>, at: nat, t: Tree, base: nat, k: nat)
    requires k <= |Visits(t)|
  {
    && at < |offs|
    && BlockAt(env, code, pool, offs, at, t)
    && SkipsUnset(offs, at, t)
    && PlacedVisits(env, code, pool, offs, at, t, k)
    && |code| == base + NodeSize(t) + Size1UpTo(t, k)
  }

  lemma BlockPlaced(env: Env, c0: bytes, p0: bytes, c1: bytes, p1: bytes, offs: seq<nat>, at: nat, t: Tree)
    requires c1 == c0 + EncNode(env, offs, at, t, |p0|) && p1 == p0 + DataAll(NodeInstrs(env, t))
    requires Exact(t) && Laid(offs, at, t, |c0|)
    ensures PlacedSoFar(env, c1, p1, offs, at, t, |c0|, 0)
  {
    hide *;
    LaidMeans(offs, at, t, |c0|);
    HereEnd(c0, EncNode(env, offs, at, t, |p0|));
    HereEnd(p0, DataAll(NodeInstrs(env, t)));
    BlockIs(env, c1, p1, offs, at, t, |p0|);
    ExactMeans(t);
    NodeAgrees(env, t);
    EncNodeLen(env, offs, at, t, |p0|);
    SizesStart(t);
    PlacedStart(env, c1, p1, offs, at, t, |c0|);
  }

  lemma LaidMeans(offs: seq<nat>, at: nat, t: Tree, base: nat)
    requires Laid(offs, at, t, base)
    ensures at < |offs| && offs[at] == base && SkipsUnset(offs, at, t) && LaidVisits(offs, at, t, base, |Visits(t)|)
  {
    hide Visits;
    hide SkipsUnset;
    hide LaidVisits;
  }

  lemma ExactMeans(t: Tree)
    requires Exact(t)
    ensures ExactNode(t) && ExactVisits(t, |Visits(t)|)
  {
    hide Visits;
    hide ExactNode;
    hide ExactVisits;
  }

  lemma HereEnd(s: bytes, x: bytes)
    ensures Here(s + x, |s|, x)
  {
  }

  lemma BlockIs(env: Env, code: bytes, pool: bytes, offs: seq<nat>, at: nat, t: Tree, d: nat)
    requires at < |offs| && Here(code, offs[at], EncNode(env, offs, at, t, d)) && Here(pool, d, DataAll(NodeInstrs(env, t)))
    ensures BlockAt(env, code, pool, offs, at, t)
  {
    hide Here;
    hide EncNode;
    hide DataAll;
    hide NodeInstrs;
    assert BlockWith(env, code, pool, offs, at, t, d);
  }

  lemma PlacedStart(env: Env, code: bytes, pool: bytes, offs: seq<nat>, at: nat, t: Tree, base: nat)
    requires at < |offs| && BlockAt(env, code, pool, offs, at, t) && SkipsUnset(offs, at, t)
    requires |code| == base + NodeSize(t) && Size1UpTo(t, 0) == 0
    ensures PlacedSoFar(env, code, pool, offs, at, t, base, 0)
  {
    hide BlockAt;
    hide SkipsUnset;
    hide NodeSize;
    hide Size1UpTo;
  }

  lemma {:induction false} LaidVisit(offs: seq<nat>, at: nat, t: Tree, base: nat, n: nat, k: nat)
    requires k < n <= |Visits(t)| && LaidVisits(offs, at, t, base, n)
    ensures Laid(offs, at + Visit(t, k).rel, Visit(t, k).sub, VisitBase(t, base, k))
  {
    hide Visits;
    hide Laid;
    hide VisitBase;
    if k < n - 1 {
      LaidVisit(offs, at, t, base, n - 1, k);
    }
  }

  lemma {:induction false} ExactVisit(t: Tree, n: nat, k: nat)
    requires k < n <= |Visits(t)| && ExactVisits(t, n)
    ensures Exact(Visit(t, k).sub)
  {
    hide Visits;
    hide Exact;
    hide Visit;
    if k < n - 1 {
      ExactVisit(t, n - 1, k);
    }
  }

  /** The next subschema is about to be written where it was laid out. */
  lemma NextIsLaid(env: Env, code: bytes, pool: bytes, offs: seq<nat>, at: nat, t: Tree, base: nat, k: nat)
    requires k < |Visits(t)| && Exact(t) && Laid(offs, at, t, base) && PlacedSoFar(env, code, pool, offs, at, t, base, k)
    ensures Exact(Visit(t, k).sub) && Laid(offs, at + Visit(t, k).rel, Visit(t, k).sub, |code|)
  {
    hide *;
    ExactMeans(t);
    LaidMeans(offs, at, t, base);
    ExactVisit(t, |Visits(t)|, k);
    LaidVisit(offs, at, t, base, |Visits(t)|, k);
    VisitBaseIs(t, base, k);
    SoFarMeans(env, code, pool, offs, at, t, base, k);
  }

  lemma VisitBaseIs(t: Tree, base: nat, k: nat)
    requires k < |Visits(t)|
    ensures VisitBase(t, base, k) == base + NodeSize(t) + Size1UpTo(t, k)
  {
    hide Visits;
    hide NodeSize;
    hide Size1UpTo;
  }

  lemma SoFarMeans(env: Env, code: bytes, pool: bytes, offs: seq<nat>, at: nat, t: Tree, base: nat, k: nat)
    requires k <= |Visits(t)|
    ensures PlacedSoFar(env, code, pool, offs, at, t, base, k) <==>
            && at < |offs|
            && BlockAt(env, code, pool, offs, at, t)
            && SkipsUnset(offs, at, t)
            && PlacedVisits(env, code, pool, offs, at, t, k)
            && |code| == base + NodeSize(t) + Size1UpTo(t, k)
  {
    hide Visits;
    hide NodeSize;
    hide Size1UpTo;
    hide BlockAt;
    hide SkipsUnset;
    hide PlacedVisits;
  }

  lemma Extends(a: bytes, b: bytes)
    requires a <= b
    ensures b == a + b[|a|..]
  {
  }

  lemma PlacedStep(env: Env, code: bytes, pool: bytes, code': bytes, pool': bytes, offs: seq<nat>, at: nat, t: Tree, base: nat, k: nat)
    requires k < |Visits(t)| && PlacedSoFar(env, code, pool, offs, at, t, base, k)
    requires code <= code' && pool <= pool' && |code'| == |code| + Size1(Visit(t, k).sub)
    requires Placed(env, code', pool', offs, at + Visit(t, k).rel, Visit(t, k).sub)
    ensures PlacedSoFar(env, code', pool', offs, at, t, base, k + 1)
  {
    hide *;
    Extends(code, code');
    Extends(pool, pool');
    SoFarMeans(env, code, pool, offs, at, t, base, k);
    BlockGrows(env, code, pool, code'[|code|..], pool'[|pool|..], offs, at, t);
    PlacedVisitsGrow(env, code, pool, code'[|code|..], pool'[|pool|..], offs, at, t, k);
    SizesStep(t, k);
    PlacedOneMore(env, code', pool', offs, at, t, k);
    SoFarMeans(env, code', pool', offs, at, t, base, k + 1);
  }

  lemma PlacedOneMore(env: Env, code: bytes, pool: bytes, offs: seq<nat>, at: nat, t: Tree, k: nat)
    requires k < |Visits(t)| && PlacedVisits(env, code, pool, offs, at, t, k)
    requires Placed(env, code, pool, offs, at + Visit(t, k).rel, Visit(t, k).sub)
    ensures PlacedVisits(env, code, pool, offs, at, t, k + 1)
  {
    hide Visits;
    hide Placed;
    hide Visit;
  }

  lemma PlacedDone(env: Env, code: bytes, pool: bytes, offs: seq<nat>, at: nat, t: Tree, base: nat)
    requires PlacedSoFar(env, code, pool, offs, at, t, base, |Visits(t)|)
    ensures Placed(env, code, pool, offs, at, t)
  {
    hide Visits;
    hide BlockAt;
    hide SkipsUnset;
    hide PlacedVisits;
    hide NodeSize;
    hide Size1UpTo;
  }

  lemma NodeWritten(env: Env, offs: seq<nat>, at: nat, t: Tree, w: CodeWriter, c0: bytes, p0: bytes)
    requires w.Valid() && w.Written() == c0 + EncNode(env, offs, at, t, |p0|) && w.Pool() == p0 + DataAll(NodeInstrs(env, t))
    ensures w.code == |c0| + NodeLen(env, t) && w.data == w.poolStart + |p0| + NodeData(env, t)
    ensures c0 <= w.Written() && p0 <= w.Pool()
  {
    hide EncNode;
    hide NodeLen;
    hide DataAll;
    hide NodeInstrs;
    Cursors(w);
    EncNodeLen(env, offs, at, t, |p0|);
  }

  lemma Nested(a: bytes, b: bytes, c: bytes)
    requires a <= b && b <= c
    ensures a <= c
  {
  }

  /** `serialize_schema_direct`. Whatever the schema, both cursors stay inside the space
      pass 1 computed; when the passes agree, every block lands on its offset. */
  method SerializeSchema(env: Env, pool: seq<Node>, w: CodeWriter, offs: seq<nat>, at: nat, ghost t: Tree)
    requires At(pool, at, t) && WfTree(t) && |offs| == |pool| && w.Valid()
    requires w.code + Size1(t) <= w.poolStart && w.data + Data1(t) <= w.buf.Length
    modifies w, w.buf
    ensures w.Valid() && w.code == old(w.code) + Size2(env, t) && w.data == old(w.data) + Data2(env, t)
    ensures old(w.Written()) <= w.Written() && old(w.Pool()) <= w.Pool()
    ensures Exact(t) && Laid(offs, at, t, old(w.code)) ==> Placed(env, w.Written(), w.Pool(), offs, at, t)
    decreases Len(t)
  {
    hide *;
    AtBound(pool, at, t);
    RoomForNode(t);
    Size2Start(env, t);
    Cursors(w);
    ghost var c0, p0 := w.Written(), w.Pool();
    ghost var good := Exact(t) && Laid(offs, at, t, |c0|);
    EmitNode(env, pool, w, offs, at, t);
    NodeWritten(env, offs, at, t, w, c0, p0);
    if good {
      BlockPlaced(env, c0, p0, w.Written(), w.Pool(), offs, at, t);
    }
    var vs := SubschemasOf(pool, at, t);
    var k := 0;
    while k < |vs|
      invariant k <= |vs| == |Visits(t)|
      invariant w.Valid()
      invariant w.code == |c0| + NodeLen(env, t) + Size2UpTo(env, t, k)
      invariant w.data == w.poolStart + |p0| + NodeData(env, t) + Data2UpTo(env, t, k)
      invariant c0 <= w.Written() && p0 <= w.Pool()
      invariant good ==> PlacedSoFar(env, w.Written(), w.Pool(), offs, at, t, |c0|, k)
    {
      ghost var v := Visit(t, k);
      ghost var c1, p1 := w.Written(), w.Pool();
      VisitAt(pool, at, t, k);
      VisitNode(at, t, k);
      WfVisit(t, k);
      RoomForSub(env, t, k);
      Cursors(w);
      if good {
        NextIsLaid(env, c1, p1, offs, at, t, |c0|, k);
      }
      SerializeSchema(env, pool, w, offs, vs[k], v.sub);
      Size2Step(env, t, k);
      Cursors(w);
      Nested(c0, c1, w.Written());
      Nested(p0, p1, w.Pool());
      if good {
        PassesAgree(env, v.sub);
        PlacedStep(env, c1, p1, w.Written(), w.Pool(), offs, at, t, |c0|, k);
      }
      k := k + 1;
    }
    if good {
      PlacedDone(env, w.Written(), w.Pool(), offs, at, t, |c0|);
    }
  }

  // ---------------------------------------------------------------- compile_schema

  const MAGIC: uint32 := 0x4A53_5642

  const VERSION: uint32 := 1

  /** `BytecodeHeader`. */
  function Header(codeSize: uint32, dataSize: uint32): (r: bytes)
    ensures |r| == 16
  {
    U32(MAGIC) + U32(VERSION) + U32(codeSize) + U32(dataSize)
  }

  /** A compiled file: header, code and constant pool, with every visited schema node's
      block at the offset assigned to it. */
  ghost predicate Compiled(env: Env, file: bytes, offs: seq<nat>, root: nat, t: Tree) {
    && Size1(t) + Data1(t) + 16 < 0x8000_0000
    && |file| == 16 + Size1(t) + Data1(t)
    && Here(file, 0, Header(Size1(t), Data1(t)))
    && Laid(offs, root, t, 16)
    && Placed(env, file[..16 + Size1(t)], file[16 + Size1(t)..], offs, root, t)
  }

  lemma AllFresh(offs: seq<nat>, at: nat, n: nat)
    requires forall i :: 0 <= i < |offs| ==> offs[i] == NO_OFFSET
    ensures Fresh(offs, at, n)
  {
  }

  lemma CompiledIs(env: Env, file: bytes, code: bytes, data: bytes, offs: seq<nat>, root: nat, t: Tree)
    requires Size1(t) + Data1(t) + 16 < 0x8000_0000 && |file| == 16 + Size1(t) + Data1(t)
    requires code == file[..16 + Size1(t)] && data <= file[16 + Size1(t)..]
    requires Header(Size1(t), Data1(t)) <= code && Laid(offs, root, t, 16)
    requires Placed(env, code, data, offs, root, t)
    ensures Compiled(env, file, offs, root, t)
  {
    hide Size1;
    hide Data1;
    hide Laid;
    hide Placed;
    hide Header;
    var rest := file[16 + Size1(t)..];
    assert code + [] == code;
    assert rest == data + rest[|data|..];
    PlacedGrows(env, code, data, [], rest[|data|..], offs, root, t);
    assert file[0..16] == code[..16];
  }

  /** `compile_schema`. Null stands for the answer to an empty node array. */
  method CompileSchema(env: Env, pool: seq<Node>, root: nat, ghost t: Tree)
    returns (file: array?<byte>, ghost offs: seq<nat>)
    requires |pool| > 0 ==> At(pool, root, t) && WfTree(t) && Size1(t) + Data1(t) + 16 < 0x8000_0000
    ensures file == null <==> |pool| == 0
    ensures file != null ==> fresh(file) && file.Length == 16 + Size1(t) + Data1(t)
    ensures file != null ==>
              && file[..8] == [0x42, 0x56, 0x53, 0x4A, 1, 0, 0, 0]
              && GetU32(file[..], 8) == Size1(t) && GetU32(file[..], 12) == Data1(t)
    ensures file != null && Exact(t) ==> Compiled(env, file[..], offs, root, t)
  {
    hide *;
    offs := [];
    if |pool| == 0 {
      return null, offs;
    }
    var table := new nat[|pool|];
    forall i | 0 <= i < table.Length {
      table[i] := 0xFFFF_FFFF;
    }
    NoOffsetIs();
    AllFresh(table[..], root, root + Len(t));
    var codeSize, dataSize := CalculateSchemaSize(pool, root, table, 16, 0, t);
    offs := table[..];
    file := new byte[16 + codeSize + dataSize];
    HeaderStored(file[..], Header(codeSize, dataSize));
    Store(file, 0, Header(codeSize, dataSize));
    var w := new CodeWriter(file, 16 + codeSize, 16);
    Starting(w, Header(codeSize, dataSize));
    SerializeSchema(env, pool, w, table[..], root, t);
    PassesAgree(env, t);
    Sections(w, Header(codeSize, dataSize));
    HeaderReads(file[..], codeSize, dataSize);
    if Exact(t) {
      CompiledIs(env, file[..], w.Written(), w.Pool(), offs, root, t);
    }
  }

  /** The header as it is read: the letters BVSJ, version 1 and both sizes, little-endian. */
  lemma HeaderReads(s: bytes, codeSize: uint32, dataSize: uint32)
    requires Here(s, 0, Header(codeSize, dataSize))
    ensures |s| >= 16 && s[..8] == [0x42, 0x56, 0x53, 0x4A, 1, 0, 0, 0]
    ensures GetU32(s, 8) == codeSize && GetU32(s, 12) == dataSize
  {
    var h := Header(codeSize, dataSize);
    assert s[0..16] == h;
    assert s[..8] == h[..8];
    HereSplit(s, 0, U32(MAGIC) + U32(VERSION) + U32(codeSize), U32(dataSize));
    HereSplit(s, 0, U32(MAGIC) + U32(VERSION), U32(codeSize));
    ReadU32(s, 8, codeSize);
    ReadU32(s, 12, dataSize);
  }

  lemma NoOffsetIs()
    ensures NO_OFFSET == 0xFFFF_FFFF
  {
  }

  lemma Starting(w: CodeWriter, header: bytes)
    requires w.Valid() && |header| == 16 == w.code <= w.buf.Length && Patched(w.buf[..], header) && w.data == w.poolStart
    ensures w.Written() == header && w.Pool() == []
  {
  }

  lemma HeaderStored(s: bytes, header: bytes)
    requires |header| <= |s|
    ensures Patched(Patch(s, 0, header), header)
  {
  }

  ghost predicate Patched(s: bytes, header: bytes) {
    |header| <= |s| && s[..|header|] == header
  }

  lemma Sections(w: CodeWriter, header: bytes)
    requires w.Valid() && header <= w.Written()
    ensures w.Written() == w.buf[..w.code] && w.Pool() <= w.buf[w.poolStart..]
    ensures Here(w.buf[..], 0, header)
  {
    assert w.buf[..][..|header|] == w.Written()[..|header|];
  }
}
