/** The arena allocator (src/comm/struct/arena.c): a chain of blocks filled from the front,
    recycled after a reset. Sizes are 64-bit; the one subtraction that can wrap does. */
module Arena {

  const ALIGNMENT: nat := 16
  const HEADER: nat := 32
  const SIZE_MAX: nat := 0xFFFF_FFFF_FFFF_FFFF

  type size_t = n: nat | n <= SIZE_MAX

  /** `align_up`; 0 for a size that cannot be rounded up. */
  function AlignUp(size: size_t): (r: size_t)
    ensures r % ALIGNMENT == 0
    ensures r >= size || r == 0
    ensures r < size + ALIGNMENT
    ensures r == 0 <==> size == 0 || size > SIZE_MAX - 15
  {
    if size > SIZE_MAX - 15 then 0 else (size + 15) / 16 * 16
  }

  /** Unsigned subtraction. */
  function Minus(a: size_t, b: size_t): size_t {
    if a >= b then a - b else a + SIZE_MAX + 1 - b
  }

  /** Blocks are told apart by their identity, which stands for their address. */
  datatype Block = Block(id: nat, capacity: size_t, used: size_t)

  /** What an allocation hands out: `size` bytes from `offset` of a block's data. */
  datatype Span = Span(block: nat, offset: nat, size: nat)

  ghost predicate Apart(a: Span, b: Span) {
    a.block != b.block || a.offset + a.size <= b.offset || b.offset + b.size <= a.offset
  }

  function Reserved(blocks: seq<Block>): nat {
    if blocks == [] then 0 else Reserved(blocks[..|blocks| - 1]) + HEADER + blocks[|blocks| - 1].capacity
  }

  lemma {:induction false} ReservedJoin(a: seq<Block>, b: seq<Block>)
    ensures Reserved(a + b) == Reserved(a) + Reserved(b)
  {
    if b == [] {
      assert a + b == a;
    } else {
      var n := |b| - 1;
      ReservedJoin(a, b[..n]);
      assert (a + b)[..|a + b| - 1] == a + b[..n];
    }
  }

  lemma ReservedInsert(a: seq<Block>, x: Block, b: seq<Block>)
    ensures Reserved(a + [x] + b) == Reserved(a + b) + HEADER + x.capacity
  {
    ReservedJoin(a + [x], b);
    ReservedJoin(a, b);
    assert (a + [x])[..|a|] == a;
  }

  /** Only the number of bytes used differs. */
  ghost predicate SameBlocks(a: seq<Block>, b: seq<Block>) {
    |a| == |b| && forall i :: 0 <= i < |a| ==> a[i].id == b[i].id && a[i].capacity == b[i].capacity
  }

  lemma {:induction false} ReservedSame(a: seq<Block>, b: seq<Block>)
    requires SameBlocks(a, b)
    ensures Reserved(a) == Reserved(b)
  {
    if a != [] {
      ReservedSame(a[..|a| - 1], b[..|b| - 1]);
    }
  }

  datatype Error = NoError | OutOfMemory | Overflow | LimitReached

  // ---------------------------------------------------------------- what always holds

  ghost predicate BlockOk(b: Block, next: nat) {
    b.id < next && b.used <= b.capacity && (b.used % ALIGNMENT == 0 || b.used == b.capacity)
  }

  ghost predicate ChainOk(blocks: seq<Block>, current: nat, next: nat) {
    && current < |blocks|
    && (forall i :: 0 <= i < |blocks| ==> BlockOk(blocks[i], next))
    && (forall i, j :: 0 <= i < j < |blocks| ==> blocks[i].id != blocks[j].id)
  }

  /** A live span lies in the used part of a block up to the current one, aligned unless empty. */
  ghost predicate SpanOk(blocks: seq<Block>, current: nat, s: Span) {
    && (s.size > 0 ==> s.offset % ALIGNMENT == 0)
    && exists i :: 0 <= i <= current && i < |blocks| && InBlock(blocks[i], s)
  }

  ghost predicate InBlock(b: Block, s: Span) { b.id == s.block && s.offset + s.size <= b.used }

  ghost predicate LiveOk(blocks: seq<Block>, current: nat, live: set<Span>) {
    && (forall s :: s in live ==> SpanOk(blocks, current, s))
    && (forall s, t :: s in live && t in live && s != t ==> Apart(s, t))
  }

  /** Taking `size` more bytes of the current block. */
  lemma BumpKeeps(blocks: seq<Block>, current: nat, next: nat, live: set<Span>, size: size_t)
    requires ChainOk(blocks, current, next) && LiveOk(blocks, current, live) && size % ALIGNMENT == 0
    requires blocks[current].used + size <= blocks[current].capacity
    ensures var b := blocks[current];
            var bumped := blocks[current := b.(used := b.used + size)];
            var s := Span(b.id, b.used, size);
            && ChainOk(bumped, current, next) && SameBlocks(blocks, bumped)
            && LiveOk(bumped, current, live + {s}) && forall t :: t in live ==> Apart(s, t)
  {
    var b := blocks[current];
    var bumped := blocks[current := b.(used := b.used + size)];
    var s := Span(b.id, b.used, size);
    forall t | t in live ensures SpanOk(bumped, current, t) && Apart(s, t) {
      assert SpanOk(blocks, current, t);
      var i :| 0 <= i <= current && i < |blocks| && InBlock(blocks[i], t);
      assert InBlock(bumped[i], t);
    }
    assert InBlock(bumped[current], s);
    assert BlockOk(b, next);
    forall i | 0 <= i < |bumped| ensures BlockOk(bumped[i], next) {
      assert BlockOk(blocks[i], next);
    }
  }

  /** Moving on to the next block, which nothing live lies in, and taking its first bytes. */
  lemma AdvanceKeeps(blocks: seq<Block>, current: nat, next: nat, live: set<Span>, size: size_t)
    requires ChainOk(blocks, current, next) && LiveOk(blocks, current, live) && size % ALIGNMENT == 0
    requires current + 1 < |blocks| && size <= blocks[current + 1].capacity
    ensures var b := blocks[current + 1];
            var moved := blocks[current + 1 := b.(used := size)];
            var s := Span(b.id, 0, size);
            && ChainOk(moved, current + 1, next) && SameBlocks(blocks, moved)
            && LiveOk(moved, current + 1, live + {s}) && forall t :: t in live ==> Apart(s, t)
  {
    var b := blocks[current + 1];
    var moved := blocks[current + 1 := b.(used := size)];
    var s := Span(b.id, 0, size);
    forall t | t in live ensures SpanOk(moved, current + 1, t) && Apart(s, t) {
      assert SpanOk(blocks, current, t);
      var i :| 0 <= i <= current && i < |blocks| && InBlock(blocks[i], t);
      assert InBlock(moved[i], t);
    }
    assert InBlock(moved[current + 1], s);
    forall i | 0 <= i < |moved| ensures BlockOk(moved[i], next) {
      assert BlockOk(blocks[i], next);
    }
  }

  /** A fresh block put behind the current one. */
  lemma InsertKeeps(blocks: seq<Block>, current: nat, next: nat, live: set<Span>, capacity: size_t)
    requires ChainOk(blocks, current, next) && LiveOk(blocks, current, live)
    ensures var grown := blocks[..current + 1] + [Block(next, capacity, 0)] + blocks[current + 1..];
            && ChainOk(grown, current, next + 1) && LiveOk(grown, current, live)
            && Reserved(grown) == Reserved(blocks) + HEADER + capacity
  {
    var a, b := blocks[..current + 1], blocks[current + 1..];
    var x := Block(next, capacity, 0);
    var grown := a + [x] + b;
    ReservedInsert(a, x, b);
    assert a + b == blocks;
    forall i | 0 <= i < |grown| ensures BlockOk(grown[i], next + 1) && (grown[i].id < next || i == current + 1) {
      if i != current + 1 {
        assert BlockOk(blocks[if i <= current then i else i - 1], next);
      }
    }
    forall t | t in live ensures SpanOk(grown, current, t) {
      assert SpanOk(blocks, current, t);
      var i :| 0 <= i <= current && i < |blocks| && InBlock(blocks[i], t);
      assert grown[i] == blocks[i];
    }
  }

  /** What is left after a reset that keeps the first bytes of the head. */
  ghost function Kept(head: Block, keep: nat, live: set<Span>): set<Span> {
    set s | s in live && s.block == head.id && s.offset + s.size <= keep
  }

  lemma ResetKeeps(blocks: seq<Block>, current: nat, next: nat, live: set<Span>, keep: size_t)
    requires ChainOk(blocks, current, next) && LiveOk(blocks, current, live)
    requires keep <= blocks[0].capacity && (keep % ALIGNMENT == 0 || keep == blocks[0].capacity)
    ensures var reset := blocks[0 := blocks[0].(used := keep)];
            && ChainOk(reset, 0, next) && SameBlocks(blocks, reset) && LiveOk(reset, 0, Kept(blocks[0], keep, live))
  {
    var reset := blocks[0 := blocks[0].(used := keep)];
    forall t | t in Kept(blocks[0], keep, live) ensures SpanOk(reset, 0, t) {
      assert SpanOk(blocks, current, t);
      assert InBlock(reset[0], t);
    }
    forall i | 0 <= i < |reset| ensures BlockOk(reset[i], next) {
      assert BlockOk(blocks[i], next);
    }
  }

  // ---------------------------------------------------------------- the arena

  class Arena {
    const defaultSize: size_t
    const maxLimit: size_t
    const shrinkAt: size_t
    var blocks: seq<Block>
    var current: nat
    var total: nat
    var next: nat
    ghost var live: set<Span>

    ghost predicate Valid()
      reads this
    {
      && ChainOk(blocks, current, next) && LiveOk(blocks, current, live)
      && total == Reserved(blocks)
    }

    /** The arena `jsonv_arena_new` makes once the first block is known to fit. */
    constructor (size: size_t, limit: size_t, shrink: size_t)
      requires HEADER + size <= limit
      ensures Valid() && live == {} && total == HEADER + size <= maxLimit
      ensures defaultSize == size && maxLimit == limit && shrinkAt == shrink
      ensures blocks == [Block(0, size, 0)] && current == 0
    {
      defaultSize, maxLimit, shrinkAt := size, limit, shrink;
      blocks, current, total, next, live := [Block(0, size, 0)], 0, HEADER + size, 1, {};
      new;
      assert Reserved([Block(0, size, 0)][..0]) == 0;
    }

    /** The capacity a new block would get. */
    function NewCapacity(aligned: size_t): size_t
    {
      if aligned > defaultSize then aligned else defaultSize
    }

    /** Whether the current block has room. */
    predicate HasRoom(aligned: size_t)
      reads this
      requires current < |blocks|
    {
      aligned <= blocks[current].capacity && blocks[current].used <= blocks[current].capacity - aligned
    }

    /** Whether the block behind the current one can be used again. */
    predicate CanRecycle(aligned: size_t)
      reads this
      requires current < |blocks|
    {
      current + 1 < |blocks| && blocks[current + 1].capacity >= aligned
    }

    /** Puts a new block behind the current one. */
    method Grow(capacity: size_t)
      requires Valid()
      modifies this
      ensures Valid() && live == old(live) && current == old(current) && total == old(total) + HEADER + capacity
      ensures current + 1 < |blocks| && blocks[current + 1].capacity == capacity
      ensures |blocks| == |old(blocks)| + 1
    {
      hide ChainOk;
      hide LiveOk;
      hide Reserved;
      InsertKeeps(blocks, current, next, live, capacity);
      ChainBound(blocks, current, next);
      blocks := blocks[..current + 1] + [Block(next, capacity, 0)] + blocks[current + 1..];
      next := next + 1;
      total := total + HEADER + capacity;
    }

    /** `jsonv_arena_alloc`; `malloc` says whether the system has memory for a new block. */
    method Alloc(size: size_t, malloc: bool) returns (r: Span, e: Error)
      requires Valid()
      modifies this
      ensures Valid()
      ensures e == NoError ==>
                && r.size == AlignUp(size) >= size && live == old(live) + {r}
                && r.size % 16 == 0 && r.size < size + 16 && (r.size > 0 ==> r.offset % 16 == 0)
                && forall t :: t in old(live) ==> Apart(r, t)
      ensures e != NoError ==> live == old(live) && blocks == old(blocks) && current == old(current) && total == old(total)
      ensures old(current) < |old(blocks)|
      ensures var aligned := AlignUp(size);
              var needed := 32 + NewCapacity(aligned);
              && (e == Overflow <==> (aligned == 0 && size > 0) || (!old(HasRoom(aligned)) && needed > SIZE_MAX))
              && (e == LimitReached <==> !(aligned == 0 && size > 0) && !old(HasRoom(aligned)) && needed <= SIZE_MAX
                                         && old(total) > Minus(maxLimit, needed))
              && (e == OutOfMemory <==> !(aligned == 0 && size > 0) && !old(HasRoom(aligned)) && needed <= SIZE_MAX
                                        && old(total) <= Minus(maxLimit, needed) && !old(CanRecycle(aligned)) && !malloc)
              && total == old(total) + (if e == NoError && !old(HasRoom(aligned)) && !old(CanRecycle(aligned)) then needed else 0)
              && (e == NoError && old(HasRoom(aligned)) ==>
                    current == old(current) && r == Span(old(blocks)[current].id, old(blocks)[current].used, aligned))
              && (e == NoError && !old(HasRoom(aligned)) ==>
                    current == old(current) + 1 && current < |blocks| && r == Span(blocks[current].id, 0, aligned)
                    && (old(CanRecycle(aligned)) ==> blocks[current].id == old(blocks)[current].id))
      ensures |blocks| == |old(blocks)| || total > old(total)
      ensures total != old(total) ==> total == old(total) + BlockSize(defaultSize, size)
      ensures old(total) <= maxLimit ==>
                (total <= maxLimit <==> total == old(total) || BlockSize(defaultSize, size) <= maxLimit)
    {
      hide ChainOk;
      hide LiveOk;
      hide Reserved;
      hide AlignUp;
      hide BlockSize;
      ChainBound(blocks, current, next);
      AlignIs(size);
      BlockSizeIs(defaultSize, size);
      CursorAligned(blocks, current, next);
      var aligned := AlignUp(size);
      r := Span(0, 0, 0);
      if aligned == 0 && size > 0 {
        return r, Overflow;
      }
      if HasRoom(aligned) {
        BumpKeeps(blocks, current, next, live, aligned);
        var b := blocks[current];
        r := Span(b.id, b.used, aligned);
        ReservedSame(blocks, blocks[current := b.(used := b.used + aligned)]);
        blocks := blocks[current := b.(used := b.used + aligned)];
        live := live + {r};
        return r, NoError;
      }
      var capacity := NewCapacity(aligned);
      if capacity > SIZE_MAX - HEADER {
        return r, Overflow;
      }
      var needed: size_t := HEADER + capacity;
      if total > Minus(maxLimit, needed) {
        return r, LimitReached;
      }
      if total <= maxLimit {
        CheckedExact(total, maxLimit, needed);
      }
      if !(current + 1 < |blocks|) || blocks[current + 1].capacity < aligned {
        if !malloc {
          return r, OutOfMemory;
        }
        Grow(capacity);
      }
      AdvanceKeeps(blocks, current, next, live, aligned);
      current := current + 1;
      var b := blocks[current];
      r := Span(b.id, 0, aligned);
      ReservedSame(blocks, blocks[current := b.(used := aligned)]);
      blocks := blocks[current := b.(used := aligned)];
      live := live + {r};
      e := NoError;
    }

    /** `jsonv_arena_reset_to`: trims to the head when too much is reserved, and keeps the
        first bytes of the head. */
    method ResetTo(keepSize: size_t)
      requires Valid()
      modifies this
      ensures Valid() && current == 0 && |old(blocks)| > 0
      ensures live == Kept(old(blocks)[0], if AlignUp(keepSize) > old(blocks)[0].capacity then old(blocks)[0].capacity else AlignUp(keepSize), old(live))
      ensures if old(total) > shrinkAt then |blocks| == 1 && total == 32 + blocks[0].capacity
              else |blocks| == |old(blocks)| && total == old(total)
      ensures blocks[0] == old(blocks)[0].(used := if AlignUp(keepSize) > old(blocks)[0].capacity then old(blocks)[0].capacity else AlignUp(keepSize))
      ensures blocks[1..] == if old(total) > shrinkAt then [] else old(blocks)[1..]
      ensures total <= old(total)
    {
      hide ChainOk;
      hide LiveOk;
      hide Reserved;
      hide AlignUp;
      ChainBound(blocks, current, next);
      AlignIs(keepSize);
      HeadReserved(blocks);
      ghost var before := blocks;
      var aligned := AlignUp(keepSize);
      if aligned > blocks[0].capacity {
        aligned := blocks[0].capacity;
      }
      ResetKeeps(blocks, current, next, live, aligned);
      live := Kept(blocks[0], aligned, live);
      var reset := blocks[0 := blocks[0].(used := aligned)];
      ReservedSame(blocks, reset);
      current := 0;
      if total > shrinkAt {
        TrimKeeps(reset, next, live);
        blocks := reset[..1];
        total := HEADER + blocks[0].capacity;
      } else {
        blocks := reset;
      }
    }
  }

  /** `jsonv_arena_new`: refused, with the reason, unless header and first block fit into a
      size, into the limit and into memory; `mallocArena` and `mallocBlock` say whether the
      system has memory for each. */
  method New(size: size_t, limit: size_t, shrink: size_t, mallocArena: bool, mallocBlock: bool) returns (a: Arena?, e: Error)
    ensures e == OutOfMemory <==> !mallocArena || (32 + size <= limit && !mallocBlock)
    ensures e == Overflow <==> mallocArena && 32 + size > 0xFFFF_FFFF_FFFF_FFFF
    ensures e == LimitReached <==> mallocArena && limit < 32 + size <= 0xFFFF_FFFF_FFFF_FFFF
    ensures a == null <==> e != NoError
    ensures a != null ==>
              && fresh(a) && a.Valid() && a.live == {} && a.total == 32 + size <= a.maxLimit
              && a.defaultSize == size && a.maxLimit == limit && a.shrinkAt == shrink
              && a.blocks == [Block(0, size, 0)] && a.current == 0
  {
    if !mallocArena {
      return null, OutOfMemory;
    }
    if size > SIZE_MAX - HEADER {
      return null, Overflow;
    }
    if HEADER + size > limit {
      return null, LimitReached;
    }
    if !mallocBlock {
      return null, OutOfMemory;
    }
    a := new Arena(size, limit, shrink);
    e := NoError;
  }

  /** What is handed out next is aligned, unless the block is full. */
  lemma CursorAligned(blocks: seq<Block>, current: nat, next: nat)
    requires ChainOk(blocks, current, next)
    ensures current < |blocks| && (blocks[current].used % 16 == 0 || blocks[current].used == blocks[current].capacity)
  {
    assert BlockOk(blocks[current], next);
  }

  lemma ChainBound(blocks: seq<Block>, current: nat, next: nat)
    requires ChainOk(blocks, current, next)
    ensures current < |blocks| && forall i :: 0 <= i < |blocks| ==> blocks[i].used <= blocks[i].capacity
  {
  }

  lemma AlignIs(size: size_t)
    ensures AlignUp(size) % 16 == 0 && (AlignUp(size) >= size || AlignUp(size) == 0) && AlignUp(size) < size + 16
  {
  }

  lemma HeadReserved(blocks: seq<Block>)
    requires blocks != []
    ensures Reserved(blocks[..1]) == HEADER + blocks[0].capacity <= Reserved(blocks)
  {
    ReservedJoin(blocks[..1], blocks[1..]);
    assert blocks[..1] + blocks[1..] == blocks;
    assert blocks[..1][..0] == [];
    assert Reserved([]) == 0;
  }

  lemma TrimKeeps(blocks: seq<Block>, next: nat, live: set<Span>)
    requires ChainOk(blocks, 0, next) && LiveOk(blocks, 0, live)
    ensures ChainOk(blocks[..1], 0, next) && LiveOk(blocks[..1], 0, live) && Reserved(blocks[..1]) == HEADER + blocks[0].capacity
  {
    HeadReserved(blocks);
    forall t | t in live ensures SpanOk(blocks[..1], 0, t) {
      assert SpanOk(blocks, 0, t);
      assert InBlock(blocks[..1][0], t);
    }
    assert BlockOk(blocks[0], next);
  }

  // ---------------------------------------------------------------- the limit

  /** The memory a block made for a request takes, its header included. */
  function BlockSize(defaultSize: size_t, size: size_t): nat {
    var aligned := AlignUp(size);
    HEADER + if aligned > defaultSize then aligned else defaultSize
  }

  lemma BlockSizeIs(defaultSize: size_t, size: size_t)
    ensures BlockSize(defaultSize, size) == HEADER + if AlignUp(size) > defaultSize then AlignUp(size) else defaultSize
  {
    hide AlignUp;
  }

  /** The check before a new block is made lets it pass within the limit exactly when it fits
      into the limit by itself: the subtraction wraps otherwise. */
  lemma CheckedExact(total: nat, limit: size_t, needed: size_t)
    requires total <= limit && total <= Minus(limit, needed)
    ensures total + needed <= limit <==> needed <= limit
  {
  }

  /** A block larger than the limit is not refused: one request suffices. */
  method LimitPassed() returns (a: Arena)
    ensures a.Valid() && a.total > a.maxLimit
  {
    a := new Arena(64, 4096, 4096);
    var r, e := a.Alloc(8192, true);
  }

  datatype Request = Take(size: size_t, malloc: bool) | Reset(keep: size_t)

  /** More is reserved after step `i` of a run: it made a block. */
  ghost predicate MadeBlock(totals: seq<nat>, i: nat)
    requires i + 1 < |totals|
  {
    totals[i] < totals[i + 1]
  }

  ghost predicate WithinUpTo(totals: seq<nat>, limit: nat) {
    forall i :: 0 <= i < |totals| ==> totals[i] <= limit
  }

  /** Every block made so far fits into the limit by itself. */
  ghost predicate BlocksFit(defaultSize: size_t, requests: seq<Request>, totals: seq<nat>, limit: nat)
    requires |totals| <= |requests| + 1
  {
    forall i :: 0 <= i < |totals| - 1 && MadeBlock(totals, i) ==> Made(defaultSize, requests[i], limit)
  }

  ghost predicate Made(defaultSize: size_t, r: Request, limit: nat) {
    r.Take? && BlockSize(defaultSize, r.size) <= limit
  }

  /** Over any run the memory reserved is the sum over the chain, what is live stays apart,
      and the limit is kept throughout exactly when every block made fits into it by itself.
      `totals` records what is reserved before the run and after each of its steps. */
  method Run(a: Arena, requests: seq<Request>) returns (totals: seq<nat>)
    requires a.Valid() && a.total <= a.maxLimit
    modifies a
    ensures a.Valid() && a.total == Reserved(a.blocks)
    ensures forall s, t :: s in a.live && t in a.live && s != t ==> Apart(s, t)
    ensures |totals| == |requests| + 1 && totals[0] == old(a.total) && totals[|requests|] == a.total
    ensures forall i :: 0 <= i < |requests| && MadeBlock(totals, i) ==>
              requests[i].Take? && totals[i + 1] == totals[i] + BlockSize(a.defaultSize, requests[i].size)
    ensures WithinUpTo(totals, a.maxLimit) <==> BlocksFit(a.defaultSize, requests, totals, a.maxLimit)
    ensures (forall i :: 0 <= i < |requests| && requests[i].Take? ==> BlockSize(a.defaultSize, requests[i].size) <= a.maxLimit)
            ==> a.total <= a.maxLimit
  {
    hide ChainOk;
    hide LiveOk;
    hide Reserved;
    hide AlignUp;
    hide Minus;
    hide BlockSize;
    totals := [a.total];
    var i := 0;
    while i < |requests|
      invariant 0 <= i <= |requests| && a.Valid() && |totals| == i + 1 && totals[i] == a.total && totals[0] == old(a.total)
      invariant forall k :: 0 <= k < i && MadeBlock(totals, k) ==>
                  requests[k].Take? && totals[k + 1] == totals[k] + BlockSize(a.defaultSize, requests[k].size)
      invariant WithinUpTo(totals, a.maxLimit) <==> BlocksFit(a.defaultSize, requests, totals, a.maxLimit)
    {
      ghost var before := totals;
      match requests[i] {
        case Take(size, malloc) =>
          var r, e := a.Alloc(size, malloc);
        case Reset(keep) =>
          a.ResetTo(keep);
      }
      totals := totals + [a.total];
      RunStep(a.defaultSize, requests, before, a.total, a.maxLimit);
      i := i + 1;
    }
    LiveApart(a.blocks, a.current, a.live);
  }

  /** One more step keeps the equivalence. */
  lemma RunStep(defaultSize: size_t, requests: seq<Request>, totals: seq<nat>, total: nat, limit: nat)
    requires 0 < |totals| <= |requests|
    requires WithinUpTo(totals, limit) <==> BlocksFit(defaultSize, requests, totals, limit)
    requires var last := totals[|totals| - 1];
             last <= limit ==> (total <= limit <==> total <= last || Made(defaultSize, requests[|totals| - 1], limit))
    ensures WithinUpTo(totals + [total], limit) <==> BlocksFit(defaultSize, requests, totals + [total], limit)
    ensures forall k :: 0 <= k < |totals| - 1 ==> (MadeBlock(totals + [total], k) <==> MadeBlock(totals, k))
  {
    hide Made;
    var more := totals + [total];
    var n := |totals| - 1;
    assert more[..n + 1] == totals;
    assert forall k :: 0 <= k <= n ==> more[k] == totals[k];
    assert WithinUpTo(more, limit) <==> WithinUpTo(totals, limit) && more[n + 1] <= limit;
    assert BlocksFit(defaultSize, requests, more, limit)
      <==> BlocksFit(defaultSize, requests, totals, limit) && (MadeBlock(more, n) ==> Made(defaultSize, requests[n], limit));
  }

  lemma LiveApart(blocks: seq<Block>, current: nat, live: set<Span>)
    requires LiveOk(blocks, current, live)
    ensures forall s, t :: s in live && t in live && s != t ==> Apart(s, t)
  {
  }
}
