/** Where pass 1 lays blocks out, and what it means for compiled code to hold a schema. */
module Placement {
  import opened Bytes
  import opened Ast
  import opened Keywords
  import opened Semantics
  import opened Layout
  import opened Code
  import opened Sizes
  import opened Agreement
  import opened PoolSizes
  import opened Cover

  /** Pass 1's result: the block of `t` starts at `base`, those of its visited subschemas
      follow one after another. */
  ghost predicate Laid(offs: seq<nat>, at: nat, t: Tree, base: nat)
    decreases Len(t), |Visits(t)| + 1
  {
    && at < |offs|
    && offs[at] == base
    && SkipsUnset(offs, at, t)
    && LaidVisits(offs, at, t, base, |Visits(t)|)
  }

  /** No block was laid out for the entries of allOf, anyOf and oneOf that are no schema. */
  ghost predicate SkipsUnset(offs: seq<nat>, at: nat, t: Tree) {
    IsObject(t) ==>
      forall i :: 0 <= i < |t.members| && IsManyKw(KwOf(t.members[i])) && IsArray(t.members[i].val)
        ==> EntriesUnset(offs, at, PosOf(t.members, i) + 2, t.members[i].val.items)
  }

  ghost predicate EntriesUnset(offs: seq<nat>, at: nat, pos: nat, items: seq<Tree>) {
    forall j :: 0 <= j < |items| && !ValidSub(items[j]) ==> Unset(offs, at + EntryPos(pos, items, j))
  }

  ghost predicate Unset(offs: seq<nat>, p: nat) {
    p < |offs| ==> offs[p] == NO_OFFSET
  }

  ghost predicate LaidVisits(offs: seq<nat>, at: nat, t: Tree, base: nat, k: nat)
    requires k <= |Visits(t)|
    decreases Len(t), k
  {
    k == 0 ||
    (&& LaidVisits(offs, at, t, base, k - 1)
     && Laid(offs, at + Visit(t, k - 1).rel, Visit(t, k - 1).sub, VisitBase(t, base, k - 1)))
  }

  /** Where visited subschema `k` starts. */
  function VisitBase(t: Tree, base: nat, k: nat): nat
    requires k < |Visits(t)|
  {
    base + NodeSize(t) + Size1UpTo(t, k)
  }

  /** Two offset tables agree on the nodes in [lo, hi). */
  ghost predicate SameOffsets(a: seq<nat>, b: seq<nat>, lo: nat, hi: nat) {
    |a| == |b| && forall p :: lo <= p < hi && p < |a| ==> a[p] == b[p]
  }

  lemma {:induction false} PosOfBound(ms: seq<Member>, i: nat)
    requires i < |ms|
    ensures MemberPos(1, ms, i) + 1 + Len(ms[i].val) <= 1 + MembersLen(ms)
  {
    PosBound(1, ms, i);
  }

  lemma {:induction false} PosBound(pos: nat, ms: seq<Member>, i: nat)
    requires i < |ms|
    ensures pos <= MemberPos(pos, ms, i)
    ensures MemberPos(pos, ms, i) + 1 + Len(ms[i].val) <= pos + MembersLen(ms)
    decreases ms
  {
    if i > 0 {
      PosBound(pos + 1 + Len(ms[0].val), ms[1..], i - 1);
    }
  }

  lemma UnsetFrame(a: seq<nat>, b: seq<nat>, at: nat, t: Tree, i: nat, j: nat)
    requires SameOffsets(a, b, at, at + Len(t)) && t.Obj? && i < |t.members| && t.members[i].val.Arr?
    requires j < |t.members[i].val.items|
    requires Unset(a, at + EntryPos(PosOf(t.members, i) + 2, t.members[i].val.items, j))
    ensures Unset(b, at + EntryPos(PosOf(t.members, i) + 2, t.members[i].val.items, j))
  {
    hide EntryPos;
    hide MemberPos;
    hide MembersLen;
    hide ItemsLen;
    MemberPosIs(1, t.members, i);
    PosOfBound(t.members, i);
    EntryPosAfter(PosOf(t.members, i) + 2, t.members[i].val.items, j);
  }

  lemma SkipsFrame(a: seq<nat>, b: seq<nat>, at: nat, t: Tree)
    requires SkipsUnset(a, at, t) && SameOffsets(a, b, at, at + Len(t))
    ensures SkipsUnset(b, at, t)
  {
    hide EntryPos;
    hide PosOf;
    hide KwOf;
    hide Unset;
    hide SameOffsets;
    hide ValidSub;
    if IsObject(t) {
      forall i | 0 <= i < |t.members| && IsManyKw(KwOf(t.members[i])) && IsArray(t.members[i].val)
        ensures EntriesUnset(b, at, PosOf(t.members, i) + 2, t.members[i].val.items)
      {
        assert EntriesUnset(a, at, PosOf(t.members, i) + 2, t.members[i].val.items);
        forall j | 0 <= j < |t.members[i].val.items| && !ValidSub(t.members[i].val.items[j])
          ensures Unset(b, at + EntryPos(PosOf(t.members, i) + 2, t.members[i].val.items, j))
        {
          UnsetFrame(a, b, at, t, i, j);
        }
      }
    }
  }

  lemma {:induction false} LaidFrame(a: seq<nat>, b: seq<nat>, at: nat, t: Tree, base: nat)
    requires Laid(a, at, t, base) && SameOffsets(a, b, at, at + Len(t))
    ensures Laid(b, at, t, base)
    decreases Len(t), |Visits(t)| + 1
  {
    hide Visits;
    hide VisitBase;
    hide SkipsUnset;
    SkipsFrame(a, b, at, t);
    LaidVisitsFrame(a, b, at, t, base, |Visits(t)|, Len(t));
  }

  /** Only the nodes below `hi` matter when the first `k` subschemas lie below it. */
  lemma {:induction false} LaidVisitsFrame(a: seq<nat>, b: seq<nat>, at: nat, t: Tree, base: nat, k: nat, hi: nat)
    requires k <= |Visits(t)| && LaidVisits(a, at, t, base, k) && SameOffsets(a, b, at, at + hi)
    requires hi == Len(t) || (k < |Visits(t)| && hi == Visit(t, k).rel)
    ensures LaidVisits(b, at, t, base, k)
    decreases Len(t), k
  {
    hide Visits;
    hide VisitBase;
    hide Laid;
    hide Visit;
    if k > 0 {
      var v := Visit(t, k - 1);
      if k < |Visits(t)| {
        VisitsOrdered(t, k - 1, k);
      }
      SameNarrow(a, b, at, at + hi, at, at + v.rel);
      LaidVisitsFrame(a, b, at, t, base, k - 1, v.rel);
      SameNarrow(a, b, at, at + hi, at + v.rel, at + v.rel + Len(v.sub));
      LaidFrame(a, b, at + v.rel, v.sub, VisitBase(t, base, k - 1));
    }
  }

  lemma SameNarrow(a: seq<nat>, b: seq<nat>, lo: nat, hi: nat, lo': nat, hi': nat)
    requires SameOffsets(a, b, lo, hi) && lo <= lo' && hi' <= hi
    ensures SameOffsets(a, b, lo', hi')
  {
  }

  /** Block `t` stands at `offs[at]` of the code, its strings at some place of the pool, and
      so do the blocks of all its visited subschemas; the entries passed by have no offset.
      `code` starts with the file header. */
  ghost predicate Placed(env: Env, code: bytes, pool: bytes, offs: seq<nat>, at: nat, t: Tree)
    decreases Len(t), |Visits(t)| + 1
  {
    && at < |offs|
    && BlockAt(env, code, pool, offs, at, t)
    && SkipsUnset(offs, at, t)
    && PlacedVisits(env, code, pool, offs, at, t, |Visits(t)|)
  }

  ghost predicate BlockAt(env: Env, code: bytes, pool: bytes, offs: seq<nat>, at: nat, t: Tree)
    requires at < |offs|
  {
    exists d: nat :: BlockWith(env, code, pool, offs, at, t, d)
  }

  ghost predicate BlockWith(env: Env, code: bytes, pool: bytes, offs: seq<nat>, at: nat, t: Tree, d: nat)
    requires at < |offs|
  {
    && Here(code, offs[at], EncNode(env, offs, at, t, d))
    && Here(pool, d, DataAll(NodeInstrs(env, t)))
  }

  ghost predicate PlacedVisits(env: Env, code: bytes, pool: bytes, offs: seq<nat>, at: nat, t: Tree, k: nat)
    requires k <= |Visits(t)|
    decreases Len(t), k
  {
    k == 0 ||
    (&& PlacedVisits(env, code, pool, offs, at, t, k - 1)
     && Placed(env, code, pool, offs, at + Visit(t, k - 1).rel, Visit(t, k - 1).sub))
  }

  /** What is placed stays placed while code and pool grow. */
  lemma {:induction false} PlacedGrows(env: Env, code: bytes, pool: bytes, x: bytes, y: bytes, offs: seq<nat>, at: nat, t: Tree)
    requires Placed(env, code, pool, offs, at, t)
    ensures Placed(env, code + x, pool + y, offs, at, t)
    decreases Len(t), |Visits(t)| + 1
  {
    hide Visits;
    hide BlockAt;
    hide SkipsUnset;
    BlockGrows(env, code, pool, x, y, offs, at, t);
    PlacedVisitsGrow(env, code, pool, x, y, offs, at, t, |Visits(t)|);
  }

  lemma BlockGrows(env: Env, code: bytes, pool: bytes, x: bytes, y: bytes, offs: seq<nat>, at: nat, t: Tree)
    requires at < |offs| && BlockAt(env, code, pool, offs, at, t)
    ensures BlockAt(env, code + x, pool + y, offs, at, t)
  {
    hide EncNode;
    hide DataAll;
    hide NodeInstrs;
    hide Here;
    var d :| BlockWith(env, code, pool, offs, at, t, d);
    HereExtend(code, x, offs[at], EncNode(env, offs, at, t, d));
    HereExtend(pool, y, d, DataAll(NodeInstrs(env, t)));
    assert BlockWith(env, code + x, pool + y, offs, at, t, d);
  }

  lemma {:induction false} PlacedVisitsGrow(env: Env, code: bytes, pool: bytes, x: bytes, y: bytes, offs: seq<nat>, at: nat, t: Tree, k: nat)
    requires k <= |Visits(t)| && PlacedVisits(env, code, pool, offs, at, t, k)
    ensures PlacedVisits(env, code + x, pool + y, offs, at, t, k)
    decreases Len(t), k
  {
    hide Visits;
    hide Placed;
    if k > 0 {
      PlacedVisitsGrow(env, code, pool, x, y, offs, at, t, k - 1);
      PlacedGrows(env, code, pool, x, y, offs, at + Visit(t, k - 1).rel, Visit(t, k - 1).sub);
    }
  }

  lemma {:induction false} PlacedVisit(env: Env, code: bytes, pool: bytes, offs: seq<nat>, at: nat, t: Tree, n: nat, k: nat)
    requires k < n <= |Visits(t)| && PlacedVisits(env, code, pool, offs, at, t, n)
    ensures Placed(env, code, pool, offs, at + Visit(t, k).rel, Visit(t, k).sub)
  {
    hide Visits;
    hide Placed;
    if k < n - 1 {
      PlacedVisit(env, code, pool, offs, at, t, n - 1, k);
    }
  }
}
