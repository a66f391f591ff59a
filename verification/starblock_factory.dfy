/** The star-block pool of kstars/skycomponents/starblockfactory.cpp.

    The pool hands out star blocks up to a budget (`nCache`), keeps every
    block it tracks on one global doubly-linked recency list (`first` is the
    most recently confirmed block, `last` the least) and stamps each confirmed
    block with the current `drawID`. Blocks live in an arena (`blocks`) indexed
    by a stable id, and every pointer becomes a `Link` into that arena. Each
    statement of the C++ pointer surgery is one update of the arena,
    read from the state as it is at that point, so aliasing behaves as in the
    C++ code. `Represents(f, L)` ties the links to the list L they encode. */
module StarBlockFactory {
  import opened RecencyList

  /** The faint magnitude of a block that holds no stars yet; the ordering
      check of markNext ignores blocks with this value. */
  const EmptyFaintMag: real := -5.0

  /** DEFAULT_NCACHE: the initial block budget. */
  const DefaultCacheSize: int := 12

  /** Cache bookkeeping of one StarBlock; its star content is not modelled. */
  datatype Block = Block(prev: Link, next: Link, drawID: nat, faintMag: real)

  /** StarBlockFactory. `nextId` is the next arena slot handed to a new block. */
  datatype Factory = Factory(
    blocks: map<BlockId, Block>,
    first: Link,
    last: Link,
    nBlocks: int,
    drawID: nat,
    nCache: int,
    nextId: BlockId)

  /** getBlock's result: the new pool state and the block handed out. */
  datatype Acquired = Acquired(factory: Factory, block: BlockId)

  /** markFirst / markNext's result: new state, the returned flag, and whether
      markNext's faint-magnitude ordering warning was logged. */
  datatype Marked = Marked(factory: Factory, ok: bool, orderWarning: bool)

  // ---------------------------------------------------------------------
  // The invariant
  // ---------------------------------------------------------------------

  /** The block at position i of L carries the links of that position. */
  ghost predicate LinkedAt(blocks: map<BlockId, Block>, L: seq<BlockId>, i: nat)
    requires i < |L|
  {
    L[i] in blocks && blocks[L[i]].prev == PrevAt(L, i) && blocks[L[i]].next == NextAt(L, i)
  }

  /** Block k has no links. */
  ghost predicate Detached(blocks: map<BlockId, Block>, k: BlockId)
    requires k in blocks
  {
    blocks[k].prev == Null && blocks[k].next == Null
  }

  /** Blocks of L carry the links of their list position; every other block
      (except `skip`, whose links are being rewritten) is fully detached. */
  ghost predicate Wired(blocks: map<BlockId, Block>, L: seq<BlockId>, skip: Link) {
    && (forall i :: 0 <= i < |L| ==> L[i] in blocks)
    && (forall i :: 0 <= i < |L| ==> LinkedAt(blocks, L, i))
    && (forall k :: k in blocks && k !in L && Ref(k) != skip ==> Detached(blocks, k))
  }

  /** nBlocks counts the live blocks, and fresh arena slots are unused. */
  ghost predicate Accounting(f: Factory) {
    && (forall k :: k in f.blocks ==> k < f.nextId)
    && f.nBlocks == |f.blocks|
  }

  /** The links of f encode exactly the recency list L: every block is fully
      linked at its position in L or fully detached, and `first` is null
      exactly when `last` is. */
  ghost predicate Represents(f: Factory, L: seq<BlockId>) {
    && Distinct(L)
    && Wired(f.blocks, L, Null)
    && f.first == Head(L)
    && f.last == Tail(L)
    && Accounting(f)
  }

  /** As Represents for the list M, while block b is off the list with stale links. */
  ghost predicate RepresentsExcept(f: Factory, M: seq<BlockId>, b: BlockId) {
    && Distinct(M)
    && b in f.blocks
    && b !in M
    && Wired(f.blocks, M, Ref(b))
    && f.first == Head(M)
    && f.last == Tail(M)
    && Accounting(f)
  }

  /** Relinking touches only links: every block keeps its stamp and magnitude. */
  ghost predicate ContentKept(f: Factory, r: Factory) {
    && r.blocks.Keys == f.blocks.Keys
    && (forall x :: x in f.blocks ==>
          r.blocks[x].drawID == f.blocks[x].drawID && r.blocks[x].faintMag == f.blocks[x].faintMag)
  }

  /** b was stamped with the current drawID; every other block kept its stamp,
      and no magnitude changed. */
  ghost predicate Restamped(f: Factory, r: Factory, b: BlockId) {
    && r.blocks.Keys == f.blocks.Keys
    && b in r.blocks
    && r.blocks[b].drawID == f.drawID
    && (forall x :: x in f.blocks && x != b ==> r.blocks[x].drawID == f.blocks[x].drawID)
    && (forall x :: x in f.blocks ==> r.blocks[x].faintMag == f.blocks[x].faintMag)
  }

  // ---------------------------------------------------------------------
  // Single field stores
  // ---------------------------------------------------------------------

  /** block->prev = l */
  function SetPrev(f: Factory, k: BlockId, l: Link): (r: Factory)
    ensures ContentKept(f, r)
    ensures r.blocks.Keys == f.blocks.Keys && r == f.(blocks := r.blocks)
  {
    if k in f.blocks then f.(blocks := f.blocks[k := f.blocks[k].(prev := l)]) else f
  }

  /** block->next = l */
  function SetNext(f: Factory, k: BlockId, l: Link): (r: Factory)
    ensures ContentKept(f, r)
    ensures r.blocks.Keys == f.blocks.Keys && r == f.(blocks := r.blocks)
  {
    if k in f.blocks then f.(blocks := f.blocks[k := f.blocks[k].(next := l)]) else f
  }

  /** block->drawID = drawID */
  function Stamp(f: Factory, k: BlockId): (r: Factory)
    ensures r.blocks.Keys == f.blocks.Keys && r == f.(blocks := r.blocks)
    ensures k in f.blocks ==> r.blocks[k] == f.blocks[k].(drawID := f.drawID)
  {
    if k in f.blocks then f.(blocks := f.blocks[k := f.blocks[k].(drawID := f.drawID)]) else f
  }

  // ---------------------------------------------------------------------
  // Relinking steps shared by markFirst and markNext
  // ---------------------------------------------------------------------

  /** if (block == last) last = block->prev; */
  function FixLast(f: Factory, b: BlockId): (r: Factory)
    requires b in f.blocks
    ensures r == f.(last := r.last)
  {
    if f.last == Ref(b) then f.(last := f.blocks[b].prev) else f
  }

  /** if (block->prev) block->prev->next = block->next;
      if (block->next) block->next->prev = block->prev; */
  function Unlink(f: Factory, b: BlockId): (r: Factory)
    requires b in f.blocks
    ensures ContentKept(f, r)
    ensures r.blocks.Keys == f.blocks.Keys && r == f.(blocks := r.blocks)
  {
    var f1 := if f.blocks[b].prev.Ref? then SetNext(f, f.blocks[b].prev.id, f.blocks[b].next) else f;
    if f1.blocks[b].next.Ref? then SetPrev(f1, f1.blocks[b].next.id, f1.blocks[b].prev) else f1
  }

  /** first->prev = block; block->next = first; block->prev = nullptr; first = block; */
  function SpliceFront(f: Factory, b: BlockId): (r: Factory)
    requires b in f.blocks && f.first.Ref?
    ensures ContentKept(f, r)
    ensures r.blocks.Keys == f.blocks.Keys
  {
    var f1 := SetPrev(f, f.first.id, Ref(b));
    var f2 := SetNext(f1, b, f1.first);
    var f3 := SetPrev(f2, b, Null);
    f3.(first := Ref(b))
  }

  /** block->next = after->next; if (block->next) block->next->prev = block;
      block->prev = after; after->next = block; if (after == last) last = block; */
  function SpliceAfter(f: Factory, a: BlockId, b: BlockId): (r: Factory)
    requires a in f.blocks && b in f.blocks
    ensures ContentKept(f, r)
    ensures r.blocks.Keys == f.blocks.Keys
    ensures r == f.(blocks := r.blocks, last := r.last)
    ensures a != b ==> r.blocks[b].prev == Ref(a)
  {
    var f1 := SetNext(f, b, f.blocks[a].next);
    var f2 := if f1.blocks[b].next.Ref? then SetPrev(f1, f1.blocks[b].next.id, Ref(b)) else f1;
    var f3 := SetPrev(f2, b, Ref(a));
    var f4 := SetNext(f3, a, Ref(b));
    if Ref(a) == f4.last then f4.(last := Ref(b)) else f4
  }

  // ---------------------------------------------------------------------
  // The operations
  // ---------------------------------------------------------------------

  /** The constructor: empty list, no blocks, drawID 0, budget DEFAULT_NCACHE. */
  function NewFactory(): (r: Factory)
    ensures Represents(r, [])
    ensures r.nBlocks == 0 && r.drawID == 0 && r.nCache == DefaultCacheSize
  {
    Factory(map[], Null, Null, 0, 0, DefaultCacheSize, 0)
  }

  /** `new StarBlock`: a detached block that was never drawn. */
  function Allocate(f: Factory): Acquired {
    var b := f.nextId;
    var f1 := f.(blocks := f.blocks[b := Block(Null, Null, 0, EmptyFaintMag)],
                 nBlocks := f.nBlocks + 1,
                 nextId := f.nextId + 1);
    Acquired(f1, b)
  }

  /** A block may be recycled when it was not drawn in the current frame, or
      was never drawn at all. */
  predicate Recyclable(f: Factory, x: BlockId)
    requires x in f.blocks
  {
    f.blocks[x].drawID != f.drawID || f.blocks[x].drawID == 0
  }

  /** getBlock(): a fresh block while under budget; at budget, the tail block
      when it is stale (or was never drawn); otherwise a fresh block past the
      budget. The handed-out block is always detached. */
  function GetBlock(f: Factory): (r: Acquired)
    requires f.last.Ref? ==> f.last.id in f.blocks
    ensures r.block in r.factory.blocks
    ensures r.factory.blocks[r.block].prev == Null && r.factory.blocks[r.block].next == Null
    ensures r.factory.drawID == f.drawID && r.factory.nCache == f.nCache
    ensures f.nBlocks < f.nCache ==> r.factory.nBlocks == f.nBlocks + 1 && r.block == f.nextId
    ensures r.factory.nBlocks == f.nBlocks ==> f.last == Ref(r.block)
    ensures r.factory.nBlocks == f.nBlocks || r.factory.nBlocks == f.nBlocks + 1
  {
    if f.nBlocks < f.nCache then
      Allocate(f)
    else if f.last.Ref? && Recyclable(f, f.last.id) then
      var b := f.last.id;
      var f1 := f.(last := f.blocks[b].prev);
      var f2 := if f1.last.Ref? then SetNext(f1, f1.last.id, Null) else f1;
      var f3 := if Ref(b) == f2.first then f2.(first := Null) else f2;
      var f4 := SetPrev(f3, b, Null);
      var f5 := SetNext(f4, b, Null);
      Acquired(f5, b)
    else
      Allocate(f)
  }

  /** markFirst(block): move the block to the front and stamp it. */
  function MarkFirst(f: Factory, block: Link): (r: Marked)
    requires block.Ref? ==> block.id in f.blocks
    ensures r.factory.blocks.Keys == f.blocks.Keys
    ensures r.ok <==> block.Ref?
    ensures !r.ok ==> r.factory == f
    ensures r.ok ==> r.factory.first == block
    ensures r.ok ==> r.factory.blocks[block.id].drawID == f.drawID
    ensures !r.orderWarning
    ensures r.factory.nBlocks == f.nBlocks && r.factory.drawID == f.drawID
  {
    if block.Null? then
      Marked(f, false, false)
    else
      var b := block.id;
      if f.first.Null? then
        var f1 := f.(first := block, last := block);
        var f2 := SetPrev(f1, b, Null);
        var f3 := SetNext(f2, b, Null);
        Marked(Stamp(f3, b), true, false)
      else if block == f.first then
        Marked(Stamp(f, b), true, false)
      else
        var f1 := FixLast(f, b);
        var f2 := Unlink(f1, b);
        var f3 := SpliceFront(f2, b);
        Marked(Stamp(f3, b), true, false)
  }

  /** Whether markNext logs its ordering warning: the anchor holds fainter
      stars than a block that is not empty. */
  predicate OutOfOrder(f: Factory, a: BlockId, b: BlockId)
    requires a in f.blocks && b in f.blocks
  {
    f.blocks[a].faintMag > f.blocks[b].faintMag && f.blocks[b].faintMag != EmptyFaintMag
  }

  /** markNext(after, block): place block directly after `after` and stamp it. */
  function MarkNext(f: Factory, after: Link, block: Link): (r: Marked)
    requires after.Ref? ==> after.id in f.blocks
    requires block.Ref? ==> block.id in f.blocks
    ensures r.factory.blocks.Keys == f.blocks.Keys
    ensures r.ok <==>
              (block.Ref? && after.Ref? && f.first.Ref? && block != after &&
               (f.blocks[block.id].prev == after || !(block == f.first && f.blocks[block.id].next.Null?)))
    ensures !r.ok ==> r.factory == f && !r.orderWarning
    ensures r.ok ==> block.Ref? && after.Ref? && block != after
    ensures r.ok ==> r.factory.blocks[block.id].prev == after
    ensures r.ok ==> r.factory.blocks[block.id].drawID == f.drawID
    ensures r.ok && f.blocks[block.id].prev == after ==>
              r.factory == Stamp(f, block.id) && !r.orderWarning
    ensures r.orderWarning <==>
              r.ok && f.blocks[block.id].prev != after && OutOfOrder(f, after.id, block.id)
    ensures r.factory.nBlocks == f.nBlocks && r.factory.drawID == f.drawID
  {
    if block.Null? || after.Null? then
      Marked(f, false, false)
    else if f.first.Null? then
      Marked(f, false, false)
    else if block == after then
      Marked(f, false, false)
    else
      var a := after.id;
      var b := block.id;
      if f.blocks[b].prev == after then
        Marked(Stamp(f, b), true, false)
      else if block == f.first && f.blocks[b].next.Null? then
        Marked(f, false, false)
      else
        var f0 := if block == f.first then f.(first := f.blocks[b].next) else f;
        Marked(MoveBehind(f0, a, b), true, OutOfOrder(f0, a, b))
  }

  /** The relinking of markNext once its guards have passed: take b out, put
      it directly after a, stamp it. */
  function MoveBehind(f: Factory, a: BlockId, b: BlockId): (r: Factory)
    requires a in f.blocks && b in f.blocks && a != b
    ensures r.blocks.Keys == f.blocks.Keys
    ensures r.blocks[b].prev == Ref(a) && r.blocks[b].drawID == f.drawID
    ensures r.nBlocks == f.nBlocks && r.drawID == f.drawID
  {
    var f1 := FixLast(f, b);
    var f2 := Unlink(f1, b);
    var f3 := SpliceAfter(f2, a, b);
    Stamp(f3, b)
  }

  // ---------------------------------------------------------------------
  // Relinking steps against the list they encode
  // ---------------------------------------------------------------------

  /** Relinking keeps the arena's slots, so the accounting still holds. */
  lemma SameKeys(f: Factory, r: Factory)
    requires Accounting(f)
    requires r.blocks.Keys == f.blocks.Keys && r.nBlocks == f.nBlocks && r.nextId == f.nextId
    ensures Accounting(r)
  {
    assert |r.blocks| == |r.blocks.Keys| == |f.blocks.Keys| == |f.blocks|;
  }

  /** Stamping a block changes no link. */
  lemma StampKeeps(f: Factory, L: seq<BlockId>, b: BlockId)
    requires Represents(f, L) && b in f.blocks
    ensures Represents(Stamp(f, b), L)
  {
    var r := Stamp(f, b);
    SameKeys(f, r);
    forall i | 0 <= i < |L| ensures LinkedAt(r.blocks, L, i) {
      assert LinkedAt(f.blocks, L, i);
    }
    forall k | k in r.blocks && k !in L ensures Detached(r.blocks, k) {
      assert Detached(f.blocks, k);
    }
  }

  /** What unlinking b changes: the `next` of its predecessor, the `prev` of
      its successor, and `last` when b was the tail. */
  ghost predicate Unlinked(g: Factory, r: Factory, b: BlockId) {
    b in g.blocks &&
    var bp := g.blocks[b].prev;
    var bn := g.blocks[b].next;
    && r.blocks.Keys == g.blocks.Keys
    && r == g.(blocks := r.blocks, last := r.last)
    && r.last == (if g.last == Ref(b) then bp else g.last)
    && (bp.Ref? && bp.id in g.blocks ==> r.blocks[bp.id] == g.blocks[bp.id].(next := bn))
    && (bn.Ref? && bn.id in g.blocks ==> r.blocks[bn.id] == g.blocks[bn.id].(prev := bp))
    && (forall x :: x in g.blocks && Ref(x) != bp && Ref(x) != bn ==> r.blocks[x] == g.blocks[x])
  }

  lemma UnlinkMap(g: Factory, b: BlockId)
    requires b in g.blocks
    requires var bp := g.blocks[b].prev; var bn := g.blocks[b].next;
      && (bp.Ref? ==> bp.id in g.blocks && bp.id != b)
      && (bn.Ref? ==> bn.id in g.blocks && bn.id != b)
      && (bp.Ref? && bn.Ref? ==> bp != bn)
    ensures Unlinked(g, Unlink(FixLast(g, b), b), b)
  {
  }

  /** Unlinking the block at position j leaves the rest of the list wired;
      `first` must already point past the block when it was the first one. */
  lemma UnlinkSpec(f: Factory, L: seq<BlockId>, j: nat)
    requires Distinct(L) && Wired(f.blocks, L, Null) && Accounting(f)
    requires j < |L|
    requires f.first == Head(Remove(L, j)) && f.last == Tail(L)
    ensures RepresentsExcept(Unlink(FixLast(f, L[j]), L[j]), Remove(L, j), L[j])
  {
    assert LinkedAt(f.blocks, L, j);
    assert j > 0 ==> LinkedAt(f.blocks, L, j - 1);
    assert j + 1 < |L| ==> LinkedAt(f.blocks, L, j + 1);
    UnlinkMap(f, L[j]);
    UnlinkWire(f, Unlink(FixLast(f, L[j]), L[j]), L, j);
  }

  /** Any arena changed as Unlinked describes encodes the list without b. */
  lemma UnlinkWire(f: Factory, r: Factory, L: seq<BlockId>, j: nat)
    requires Distinct(L) && Wired(f.blocks, L, Null) && Accounting(f)
    requires j < |L|
    requires f.first == Head(Remove(L, j)) && f.last == Tail(L)
    requires Unlinked(f, r, L[j])
    ensures RepresentsExcept(r, Remove(L, j), L[j])
  {
    var b := L[j];
    var M := Remove(L, j);
    RemoveDistinct(L, j);
    RemoveAt(L, j);
    SameKeys(f, r);
    assert LinkedAt(f.blocks, L, j);
    UnlinkFront(f, r, L, j);
    UnlinkBack(f, r, L, j);
    forall k | k in r.blocks && k !in M && k != b
      ensures Detached(r.blocks, k)
    {
      assert k !in L && Detached(f.blocks, k);
    }
    assert r.last == Tail(M) by {
      if j + 1 < |L| {
        assert M[|M| - 1] == L[|L| - 1];
      }
    }
  }

  /** Blocks in front of the unlinked one: only its predecessor changes, and it
      now points past it. */
  lemma UnlinkFront(f: Factory, r: Factory, L: seq<BlockId>, j: nat)
    requires Distinct(L) && Wired(f.blocks, L, Null) && j < |L|
    requires Unlinked(f, r, L[j])
    ensures forall i :: 0 <= i < j ==> LinkedAt(r.blocks, Remove(L, j), i)
  {
    var M := Remove(L, j);
    RemoveAt(L, j);
    assert LinkedAt(f.blocks, L, j);
    forall i | 0 <= i < j ensures LinkedAt(r.blocks, M, i) {
      assert LinkedAt(f.blocks, L, i);
      assert i > 0 ==> M[i - 1] == L[i - 1];
      if i + 1 < j {
        assert M[i + 1] == L[i + 1];
      } else if j + 1 < |L| {
        assert M[i + 1] == L[j + 1];
      }
    }
  }

  /** Blocks behind the unlinked one: only its successor changes, and it now
      points back past it. */
  lemma UnlinkBack(f: Factory, r: Factory, L: seq<BlockId>, j: nat)
    requires Distinct(L) && Wired(f.blocks, L, Null) && j < |L|
    requires Unlinked(f, r, L[j])
    ensures forall i :: j <= i < |L| - 1 ==> LinkedAt(r.blocks, Remove(L, j), i)
  {
    var M := Remove(L, j);
    RemoveAt(L, j);
    assert LinkedAt(f.blocks, L, j);
    forall i | j <= i < |L| - 1 ensures LinkedAt(r.blocks, M, i) {
      assert LinkedAt(f.blocks, L, i + 1);
      assert i + 2 < |L| ==> M[i + 1] == L[i + 2];
      if i > j {
        assert M[i - 1] == L[i];
      } else if j > 0 {
        assert M[i - 1] == L[j - 1];
      }
    }
  }

  /** A detached block needs no unlinking. */
  lemma UnlinkDetached(f: Factory, L: seq<BlockId>, b: BlockId)
    requires Represents(f, L) && b in f.blocks && b !in L
    ensures Unlink(FixLast(f, b), b) == f
    ensures RepresentsExcept(f, L, b)
  {
    assert Detached(f.blocks, b);
  }

  /** What SpliceFront changes: the old first block points back to b, b points
      forward to it, and `first` is b. */
  ghost predicate SplicedFront(g: Factory, r: Factory, b: BlockId) {
    g.first.Ref? && g.first.id in g.blocks && b in g.blocks &&
    var m0 := g.first.id;
    && r.blocks.Keys == g.blocks.Keys
    && r == g.(blocks := r.blocks, first := Ref(b))
    && r.blocks[m0] == g.blocks[m0].(prev := Ref(b))
    && r.blocks[b] == g.blocks[b].(next := Ref(m0), prev := Null)
    && (forall x :: x in g.blocks && x != m0 && x != b ==> r.blocks[x] == g.blocks[x])
  }

  lemma SpliceFrontMap(g: Factory, b: BlockId)
    requires g.first.Ref? && g.first.id in g.blocks && b in g.blocks && g.first.id != b
    ensures SplicedFront(g, SpliceFront(g, b), b)
  {
  }

  /** Splicing an unlinked block in front of the list. */
  lemma SpliceFrontSpec(g: Factory, M: seq<BlockId>, b: BlockId)
    requires RepresentsExcept(g, M, b) && |M| > 0
    ensures Represents(SpliceFront(g, b), [b] + M)
  {
    assert LinkedAt(g.blocks, M, 0);
    SpliceFrontMap(g, b);
    SpliceFrontWire(g, SpliceFront(g, b), M, b);
  }

  /** Any arena changed as SplicedFront describes encodes b followed by the list. */
  lemma SpliceFrontWire(g: Factory, r: Factory, M: seq<BlockId>, b: BlockId)
    requires RepresentsExcept(g, M, b) && |M| > 0 && SplicedFront(g, r, b)
    ensures Represents(r, [b] + M)
  {
    var L := [b] + M;
    SameKeys(g, r);
    SpliceFrontLinks(g, r, M, b, L);
    SpliceFrontDetached(g, r, M, b, L);
    assert L[|L| - 1] == M[|M| - 1];
  }

  lemma SpliceFrontLinks(g: Factory, r: Factory, M: seq<BlockId>, b: BlockId, L: seq<BlockId>)
    requires RepresentsExcept(g, M, b) && |M| > 0 && SplicedFront(g, r, b)
    requires L == [b] + M
    ensures forall i :: 0 <= i < |L| ==> LinkedAt(r.blocks, L, i)
  {
    assert forall i :: 0 < i < |L| ==> L[i] == M[i - 1];
    forall i | 0 <= i < |L| ensures LinkedAt(r.blocks, L, i) {
      if i > 0 {
        assert LinkedAt(g.blocks, M, i - 1);
        assert i > 1 ==> L[i - 1] == M[i - 2];
      }
    }
  }

  lemma SpliceFrontDetached(g: Factory, r: Factory, M: seq<BlockId>, b: BlockId, L: seq<BlockId>)
    requires RepresentsExcept(g, M, b) && |M| > 0 && SplicedFront(g, r, b)
    requires L == [b] + M
    ensures forall k :: k in r.blocks && k !in L ==> Detached(r.blocks, k)
  {
    forall k | k in r.blocks && k !in L ensures Detached(r.blocks, k) {
      assert k != b && k !in M && Detached(g.blocks, k);
    }
  }

  /** What SpliceAfter changes: the links of b, of the anchor a and of a's old
      successor, and `last` when a was the tail. */
  ghost predicate SplicedAfter(g: Factory, r: Factory, a: BlockId, b: BlockId) {
    a in g.blocks && b in g.blocks &&
    var an := g.blocks[a].next;
    && r.blocks.Keys == g.blocks.Keys
    && r == g.(blocks := r.blocks, last := r.last)
    && r.last == (if g.last == Ref(a) then Ref(b) else g.last)
    && r.blocks[a] == g.blocks[a].(next := Ref(b))
    && r.blocks[b] == g.blocks[b].(next := an, prev := Ref(a))
    && (an.Ref? && an.id in g.blocks ==> r.blocks[an.id] == g.blocks[an.id].(prev := Ref(b)))
    && (forall x :: x in g.blocks && x != a && x != b && Ref(x) != an ==> r.blocks[x] == g.blocks[x])
  }

  lemma SpliceAfterMap(g: Factory, a: BlockId, b: BlockId)
    requires a in g.blocks && b in g.blocks && a != b
    requires var an := g.blocks[a].next; an.Ref? ==> an.id in g.blocks && an.id != a && an.id != b
    ensures SplicedAfter(g, SpliceAfter(g, a, b), a, b)
  {
  }

  /** Splicing an unlinked block directly after position k of the list. */
  lemma SpliceAfterSpec(g: Factory, M: seq<BlockId>, b: BlockId, k: nat)
    requires RepresentsExcept(g, M, b) && k < |M|
    ensures Represents(SpliceAfter(g, M[k], b), InsertAfter(M, k, b))
  {
    assert LinkedAt(g.blocks, M, k);
    assert k + 1 < |M| ==> LinkedAt(g.blocks, M, k + 1);
    SpliceAfterMap(g, M[k], b);
    SpliceAfterWire(g, SpliceAfter(g, M[k], b), M, b, k);
  }

  /** Any arena changed as SplicedAfter describes encodes the list with b inserted. */
  lemma SpliceAfterWire(g: Factory, r: Factory, M: seq<BlockId>, b: BlockId, k: nat)
    requires RepresentsExcept(g, M, b) && k < |M| && SplicedAfter(g, r, M[k], b)
    ensures Represents(r, InsertAfter(M, k, b))
  {
    var L := InsertAfter(M, k, b);
    SameKeys(g, r);
    InsertAfterAt(M, k, b);
    SpliceAfterBefore(g, r, M, b, k);
    SpliceAfterBehind(g, r, M, b, k);
    assert LinkedAt(g.blocks, M, k);
    assert LinkedAt(r.blocks, L, k) by {
      assert k > 0 ==> L[k - 1] == M[k - 1];
    }
    assert LinkedAt(r.blocks, L, k + 1) by {
      assert k + 2 < |L| ==> L[k + 2] == M[k + 1];
    }
    SpliceAfterDetached(g, r, M, b, k, L);
    InsertAfterDistinct(M, k, b);
    InsertAfterEnds(M, k, b);
  }

  lemma SpliceAfterDetached(g: Factory, r: Factory, M: seq<BlockId>, b: BlockId, k: nat, L: seq<BlockId>)
    requires RepresentsExcept(g, M, b) && k < |M| && SplicedAfter(g, r, M[k], b)
    requires L == InsertAfter(M, k, b)
    ensures forall x :: x in r.blocks && x !in L ==> Detached(r.blocks, x)
  {
    InsertAfterHas(M, k, b);
    assert LinkedAt(g.blocks, M, k);
    assert k + 1 < |M| ==> M[k + 1] in M;
    forall x | x in r.blocks && x !in L ensures Detached(r.blocks, x) {
      assert x != b && x !in M && Detached(g.blocks, x);
    }
  }

  /** The blocks in front of the anchor keep their links. */
  lemma SpliceAfterBefore(g: Factory, r: Factory, M: seq<BlockId>, b: BlockId, k: nat)
    requires RepresentsExcept(g, M, b) && k < |M| && SplicedAfter(g, r, M[k], b)
    ensures forall i :: 0 <= i < k ==> LinkedAt(r.blocks, InsertAfter(M, k, b), i)
  {
    var L := InsertAfter(M, k, b);
    InsertAfterAt(M, k, b);
    assert LinkedAt(g.blocks, M, k);
    forall i | 0 <= i < k ensures LinkedAt(r.blocks, L, i) {
      assert LinkedAt(g.blocks, M, i);
      assert i > 0 ==> L[i - 1] == M[i - 1];
      assert L[i + 1] == M[i + 1];
    }
  }

  /** The blocks behind the spliced block keep their links, except that the
      anchor's old successor now points back to b. */
  lemma SpliceAfterBehind(g: Factory, r: Factory, M: seq<BlockId>, b: BlockId, k: nat)
    requires RepresentsExcept(g, M, b) && k < |M| && SplicedAfter(g, r, M[k], b)
    ensures forall i :: k + 1 < i < |M| + 1 ==> LinkedAt(r.blocks, InsertAfter(M, k, b), i)
  {
    var L := InsertAfter(M, k, b);
    InsertAfterAt(M, k, b);
    assert LinkedAt(g.blocks, M, k);
    forall i | k + 1 < i < |L| ensures LinkedAt(r.blocks, L, i) {
      assert LinkedAt(g.blocks, M, i - 1);
      assert i + 1 < |L| ==> L[i + 1] == M[i];
      assert i > k + 2 ==> L[i - 1] == M[i - 2];
    }
  }

  // ---------------------------------------------------------------------
  // markFirst and markNext against the recency list
  // ---------------------------------------------------------------------

  /** Stamping b after a relinking that kept every block's content. */
  lemma StampAfterRelink(f: Factory, g: Factory, b: BlockId)
    requires ContentKept(f, g) && g.drawID == f.drawID && b in g.blocks
    ensures Restamped(f, Stamp(g, b), b)
  {
  }

  /** markFirst(b) on a consistent pool moves b to the front of the recency
      list, keeps every other block in order and stamps b, whether b was
      linked, detached or already first. */
  lemma MarkFirstMovesToFront(f: Factory, L: seq<BlockId>, b: BlockId)
    requires Represents(f, L) && b in f.blocks
    ensures MarkFirst(f, Ref(b)).ok
    ensures Represents(MarkFirst(f, Ref(b)).factory, MoveToFront(L, b))
    ensures Restamped(f, MarkFirst(f, Ref(b)).factory, b)
  {
    if f.first.Null? {
      MarkFirstOnEmpty(f, L, b);
    } else if Ref(b) == f.first {
      MarkFirstAlreadyFirst(f, L, b);
    } else if b in L {
      MarkFirstLinked(f, L, b);
    } else {
      MarkFirstDetached(f, L, b);
    }
  }

  /** markFirst on an empty list links b as the only block. */
  lemma MarkFirstOnEmpty(f: Factory, L: seq<BlockId>, b: BlockId)
    requires Represents(f, L) && b in f.blocks && f.first.Null?
    ensures Represents(MarkFirst(f, Ref(b)).factory, MoveToFront(L, b))
    ensures Restamped(f, MarkFirst(f, Ref(b)).factory, b)
  {
    assert L == [];
    assert MoveToFront(L, b) == [b];
    FirstOnEmpty(f, b);
    OnlyBlock(f, b);
  }

  /** b linked as the only block of a list that was empty. */
  lemma OnlyBlock(f: Factory, b: BlockId)
    requires Represents(f, []) && b in f.blocks
    ensures var r := f.(first := Ref(b), last := Ref(b),
                        blocks := f.blocks[b := f.blocks[b].(prev := Null, next := Null, drawID := f.drawID)]);
      Represents(r, [b]) && Restamped(f, r, b)
  {
    var r := f.(first := Ref(b), last := Ref(b),
                blocks := f.blocks[b := f.blocks[b].(prev := Null, next := Null, drawID := f.drawID)]);
    SameKeys(f, r);
    assert LinkedAt(r.blocks, [b], 0);
    OthersDetached(f, r, b);
  }

  /** markFirst on an empty list: b becomes the whole list, unlinked and
      stamped. */
  lemma FirstOnEmpty(f: Factory, b: BlockId)
    requires b in f.blocks && f.first.Null?
    ensures MarkFirst(f, Ref(b)).factory ==
      f.(first := Ref(b), last := Ref(b),
         blocks := f.blocks[b := f.blocks[b].(prev := Null, next := Null, drawID := f.drawID)])
  {
  }

  /** Rewriting one block leaves every other block of an empty list detached. */
  lemma OthersDetached(f: Factory, r: Factory, b: BlockId)
    requires Represents(f, []) && b in f.blocks
    requires b in r.blocks && r.blocks == f.blocks[b := r.blocks[b]]
    ensures forall k :: k in r.blocks && k !in [b] ==> Detached(r.blocks, k)
  {
    forall k | k in r.blocks && k !in [b] ensures Detached(r.blocks, k) {
      assert Detached(f.blocks, k);
    }
  }

  /** markFirst on the first block only restamps it. */
  lemma MarkFirstAlreadyFirst(f: Factory, L: seq<BlockId>, b: BlockId)
    requires Represents(f, L) && b in f.blocks && f.first == Ref(b)
    ensures Represents(MarkFirst(f, Ref(b)).factory, MoveToFront(L, b))
    ensures Restamped(f, MarkFirst(f, Ref(b)).factory, b)
  {
    MoveToFrontOfFirst(L);
    FirstStamps(f, b);
    StampKeeps(f, L, b);
    StampRestamps(f, b);
  }

  /** markFirst on the block that is already first: a stamp and nothing else. */
  lemma FirstStamps(f: Factory, b: BlockId)
    requires b in f.blocks && f.first == Ref(b)
    ensures MarkFirst(f, Ref(b)) == Marked(Stamp(f, b), true, false)
  {
  }

  /** markFirst on a linked block behind the first: unlink, splice in front. */
  lemma MarkFirstLinked(f: Factory, L: seq<BlockId>, b: BlockId)
    requires Represents(f, L) && b in L && f.first != Ref(b)
    ensures Represents(MarkFirst(f, Ref(b)).factory, MoveToFront(L, b))
    ensures Restamped(f, MarkFirst(f, Ref(b)).factory, b)
  {
    var j := IndexOf(L, b);
    var M := Remove(L, j);
    RemoveAt(L, j);
    assert j > 0 && M[0] == L[0];
    UnlinkSpec(f, L, j);
    var f2 := Unlink(FixLast(f, b), b);
    var f3 := SpliceFront(f2, b);
    SpliceFrontSpec(f2, M, b);
    assert MarkFirst(f, Ref(b)).factory == Stamp(f3, b);
    assert MoveToFront(L, b) == [b] + M;
    StampKeeps(f3, [b] + M, b);
    StampAfterRelink(f, f3, b);
  }

  /** markFirst on a detached block splices it in front without unlinking. */
  lemma MarkFirstDetached(f: Factory, L: seq<BlockId>, b: BlockId)
    requires Represents(f, L) && b in f.blocks && b !in L && f.first.Ref?
    ensures Represents(MarkFirst(f, Ref(b)).factory, MoveToFront(L, b))
    ensures Restamped(f, MarkFirst(f, Ref(b)).factory, b)
  {
    UnlinkDetached(f, L, b);
    var f3 := SpliceFront(f, b);
    SpliceFrontSpec(f, L, b);
    assert MarkFirst(f, Ref(b)).factory == Stamp(f3, b);
    StampKeeps(f3, [b] + L, b);
    StampAfterRelink(f, f3, b);
  }

  /** A pool holding the list [0, 1] and a third, detached block 2, all drawn
      in frame 1. */
  function TwoListedOneLoose(): Factory {
    Factory(map[0 := Block(Null, Ref(1), 1, EmptyFaintMag),
                1 := Block(Ref(0), Null, 1, EmptyFaintMag),
                2 := Block(Null, Null, 1, EmptyFaintMag)],
            Ref(0), Ref(1), 3, 1, DefaultCacheSize, 3)
  }

  /** The pool TwoListedOneLoose() leaves behind after markNext(2, 1). */
  function BrokenAfterLooseAnchor(): Factory {
    Factory(map[0 := Block(Null, Null, 1, EmptyFaintMag),
                1 := Block(Ref(2), Null, 1, EmptyFaintMag),
                2 := Block(Null, Ref(1), 1, EmptyFaintMag)],
            Ref(0), Ref(0), 3, 1, DefaultCacheSize, 3)
  }

  /** markNext with a detached anchor is accepted, yet it breaks the list:
      block 1 is cut off after block 0, and the off-list anchor 2 is left
      pointing at it, so the links encode no recency list at all. */
  lemma DetachedAnchorRun()
    ensures Represents(TwoListedOneLoose(), [0, 1])
    ensures MarkNext(TwoListedOneLoose(), Ref(2), Ref(1)) == Marked(BrokenAfterLooseAnchor(), true, false)
    ensures forall L :: !Represents(BrokenAfterLooseAnchor(), L)
  {
    TwoListed();
    LooseAnchorSteps();
    NothingRepresented();
  }

  lemma TwoListed()
    ensures Represents(TwoListedOneLoose(), [0, 1])
  {
    var f := TwoListedOneLoose();
    assert LinkedAt(f.blocks, [0, 1], 0) && LinkedAt(f.blocks, [0, 1], 1);
  }

  lemma LooseAnchorSteps()
    ensures MarkNext(TwoListedOneLoose(), Ref(2), Ref(1)) == Marked(BrokenAfterLooseAnchor(), true, false)
  {
    var f := TwoListedOneLoose();
    assert !OutOfOrder(f, 2, 1);
    var f1 := FixLast(f, 1);
    assert f1.last == Ref(0);
    var f2 := Unlink(f1, 1);
    assert f2.blocks == f.blocks[0 := Block(Null, Null, 1, EmptyFaintMag)];
    var f3 := SpliceAfter(f2, 2, 1);
    assert f3.blocks == BrokenAfterLooseAnchor().blocks && f3.last == Ref(0);
    assert MoveBehind(f, 2, 1) == Stamp(f3, 1);
  }

  lemma NothingRepresented()
    ensures forall L :: !Represents(BrokenAfterLooseAnchor(), L)
  {
    var g := BrokenAfterLooseAnchor();
    assert !Detached(g.blocks, 2);
    forall L ensures !Represents(g, L) {
      if |L| == 1 && L[0] == 0 {
        assert 2 !in L;
      } else if |L| >= 2 {
        assert !Distinct(L) || Head(L) != Tail(L);
      }
    }
  }

  /** Past its guards, markNext is the relinking MoveBehind spells out, with
      `first` advanced first when b was the first block. */
  lemma MarkNextUnfolds(f: Factory, a: BlockId, b: BlockId)
    requires a in f.blocks && b in f.blocks && a != b && f.first.Ref?
    requires f.blocks[b].prev != Ref(a)
    requires f.first == Ref(b) ==> f.blocks[b].next.Ref?
    ensures var f0 := if Ref(b) == f.first then f.(first := f.blocks[b].next) else f;
      && MarkNext(f, Ref(a), Ref(b)).ok
      && MarkNext(f, Ref(a), Ref(b)).factory == Stamp(SpliceAfter(Unlink(FixLast(f0, b), b), a, b), b)
  {
  }

  /** markNext(a, b) with a on the list and b any other block of the pool
      places b directly behind a, keeps every other block in order and
      stamps b. It never takes the "only block" rejection, since a is linked
      too. The anchor has to be on the list: see DetachedAnchorRun. */
  lemma MarkNextPlaces(f: Factory, L: seq<BlockId>, a: BlockId, b: BlockId)
    requires Represents(f, L) && a in L && b in f.blocks && a != b
    ensures MarkNext(f, Ref(a), Ref(b)).ok
    ensures Represents(MarkNext(f, Ref(a), Ref(b)).factory, MoveAfter(L, a, b))
    ensures Restamped(f, MarkNext(f, Ref(a), Ref(b)).factory, b)
  {
    if f.blocks[b].prev == Ref(a) {
      MarkNextInPlace(f, L, a, b);
    } else if b in L {
      MarkNextLinked(f, L, a, b);
    } else {
      MarkNextDetached(f, L, a, b);
    }
  }

  /** markNext on a block already behind a only restamps it. */
  lemma MarkNextInPlace(f: Factory, L: seq<BlockId>, a: BlockId, b: BlockId)
    requires Represents(f, L) && a in L && b in f.blocks && a != b
    requires f.blocks[b].prev == Ref(a)
    ensures MarkNext(f, Ref(a), Ref(b)).ok
    ensures Represents(MarkNext(f, Ref(a), Ref(b)).factory, MoveAfter(L, a, b))
    ensures Restamped(f, MarkNext(f, Ref(a), Ref(b)).factory, b)
  {
    var j := IndexOf(L, b);
    assert LinkedAt(f.blocks, L, j);
    MoveAfterInPlace(L, j);
    StampKeeps(f, L, b);
    InPlaceStamps(f, a, b);
    StampRestamps(f, b);
  }

  /** The guard that a block already sits behind its anchor: a stamp and
      nothing else. */
  lemma InPlaceStamps(f: Factory, a: BlockId, b: BlockId)
    requires a in f.blocks && b in f.blocks && a != b && f.first.Ref?
    requires f.blocks[b].prev == Ref(a)
    ensures MarkNext(f, Ref(a), Ref(b)) == Marked(Stamp(f, b), true, false)
  {
  }

  lemma StampRestamps(f: Factory, b: BlockId)
    requires b in f.blocks
    ensures Restamped(f, Stamp(f, b), b)
  {
  }

  /** markNext on a detached block splices it in behind a. */
  lemma MarkNextDetached(f: Factory, L: seq<BlockId>, a: BlockId, b: BlockId)
    requires Represents(f, L) && a in L && b in f.blocks && b !in L && a != b
    ensures MarkNext(f, Ref(a), Ref(b)).ok
    ensures Represents(MarkNext(f, Ref(a), Ref(b)).factory, MoveAfter(L, a, b))
    ensures Restamped(f, MarkNext(f, Ref(a), Ref(b)).factory, b)
  {
    var ia := IndexOf(L, a);
    assert LinkedAt(f.blocks, L, ia);
    assert Detached(f.blocks, b);
    UnlinkDetached(f, L, b);
    SpliceAfterSpec(f, L, b, ia);
    var f3 := SpliceAfter(f, a, b);
    MarkNextUnfolds(f, a, b);
    assert MoveAfter(L, a, b) == InsertAfter(L, ia, b);
    StampKeeps(f3, InsertAfter(L, ia, b), b);
    StampAfterRelink(f, f3, b);
  }

  /** The linked case of MarkNextPlaces: b is unlinked from position j
      (advancing `first` when j is 0) and spliced in behind a. */
  lemma MarkNextLinked(f: Factory, L: seq<BlockId>, a: BlockId, b: BlockId)
    requires Represents(f, L) && a in L && b in L && a != b
    requires f.blocks[b].prev != Ref(a)
    ensures MarkNext(f, Ref(a), Ref(b)).ok
    ensures Represents(MarkNext(f, Ref(a), Ref(b)).factory, MoveAfter(L, a, b))
    ensures Restamped(f, MarkNext(f, Ref(a), Ref(b)).factory, b)
  {
    var j := IndexOf(L, b);
    var M := Remove(L, j);
    RemoveAt(L, j);
    RemoveDistinct(L, j);
    assert LinkedAt(f.blocks, L, j);
    assert |L| > 1;
    assert j == 0 ==> L[1] == M[0];
    assert j > 0 ==> L[0] == M[0];
    var f0 := if Ref(b) == f.first then f.(first := f.blocks[b].next) else f;
    assert f0.first == Head(M);
    UnlinkSpec(f0, L, j);
    var f2 := Unlink(FixLast(f0, b), b);
    var k := IndexOf(M, a);
    SpliceAfterSpec(f2, M, b, k);
    var f3 := SpliceAfter(f2, a, b);
    MarkNextUnfolds(f, a, b);
    IndexOfDistinct(L, j);
    assert MoveAfter(L, a, b) == InsertAfter(M, k, b);
    StampKeeps(f3, InsertAfter(M, k, b), b);
    StampAfterRelink(f, f3, b);
  }

  // ---------------------------------------------------------------------
  // getBlock against the recency list
  // ---------------------------------------------------------------------

  /** Whether getBlock recycles the tail of L rather than allocating. */
  ghost predicate Recycles(f: Factory, L: seq<BlockId>)
    requires Represents(f, L)
  {
    f.nBlocks >= f.nCache && |L| > 0 && Recyclable(f, L[|L| - 1])
  }

  /** getBlock on a consistent pool: either it recycles the stale tail block,
      which leaves the list and the pool's size unchanged, or it allocates a
      new detached block, which grows the pool by one and leaves the list as
      it was. Either way the block handed out is off the list. */
  lemma GetBlockSpec(f: Factory, L: seq<BlockId>)
    requires Represents(f, L)
    ensures var r := GetBlock(f);
      && (Recycles(f, L) ==>
            && r.block == L[|L| - 1]
            && Represents(r.factory, L[..|L| - 1])
            && r.factory.nBlocks == f.nBlocks
            && r.factory.blocks.Keys == f.blocks.Keys
            && RecycleKeepsContent(f, r))
      && (!Recycles(f, L) ==>
            && r.block !in f.blocks
            && Represents(r.factory, L)
            && r.factory.nBlocks == f.nBlocks + 1
            && r.factory.blocks.Keys == f.blocks.Keys + {r.block}
            && (forall x :: x in f.blocks ==> r.factory.blocks[x] == f.blocks[x]))
  {
    if Recycles(f, L) {
      var n := |L|;
      assert LinkedAt(f.blocks, L, n - 1);
      assert n > 1 ==> LinkedAt(f.blocks, L, n - 2);
      GetBlockRecycleMap(f);
      GetBlockRecycleWire(f, GetBlock(f).factory, L);
    } else {
      GetBlockAllocates(f, L);
    }
  }

  /** Every block other than the one handed out keeps its stamp and magnitude. */
  ghost predicate RecycleKeepsContent(f: Factory, r: Acquired) {
    forall x :: x in f.blocks && x != r.block && x in r.factory.blocks ==>
      r.factory.blocks[x].drawID == f.blocks[x].drawID && r.factory.blocks[x].faintMag == f.blocks[x].faintMag
  }

  /** What recycling the tail block b changes: the new tail's `next`, b's own
      links, `last`, and `first` when b was the only block. */
  ghost predicate Recycled(g: Factory, r: Factory, b: BlockId) {
    b in g.blocks &&
    var bp := g.blocks[b].prev;
    && r.blocks.Keys == g.blocks.Keys
    && r == g.(blocks := r.blocks, first := r.first, last := r.last)
    && r.last == bp
    && r.first == (if g.first == Ref(b) then Null else g.first)
    && r.blocks[b] == g.blocks[b].(prev := Null, next := Null)
    && (bp.Ref? && bp.id in g.blocks ==> r.blocks[bp.id] == g.blocks[bp.id].(next := Null))
    && (forall x :: x in g.blocks && x != b && Ref(x) != bp ==> r.blocks[x] == g.blocks[x])
  }

  lemma GetBlockRecycleMap(f: Factory)
    requires f.nBlocks >= f.nCache && f.last.Ref? && f.last.id in f.blocks && Recyclable(f, f.last.id)
    requires var bp := f.blocks[f.last.id].prev; bp.Ref? ==> bp.id in f.blocks && bp.id != f.last.id
    ensures GetBlock(f).block == f.last.id
    ensures Recycled(f, GetBlock(f).factory, f.last.id)
  {
  }

  /** Any arena changed as Recycled describes encodes the list without its tail. */
  lemma GetBlockRecycleWire(f: Factory, r: Factory, L: seq<BlockId>)
    requires Represents(f, L) && |L| > 0 && Recycled(f, r, L[|L| - 1])
    requires r.nBlocks == f.nBlocks
    ensures Represents(r, L[..|L| - 1])
  {
    var P := L[..|L| - 1];
    DistinctSplit(L, |L| - 1);
    SameKeys(f, r);
    RecycleWired(f, r, L, P);
    assert LinkedAt(f.blocks, L, |L| - 1);
    assert |L| > 1 ==> P[0] == L[0] && P[|L| - 2] == L[|L| - 2];
  }

  lemma RecycleWired(f: Factory, r: Factory, L: seq<BlockId>, P: seq<BlockId>)
    requires Represents(f, L) && |L| > 0 && Recycled(f, r, L[|L| - 1])
    requires P == L[..|L| - 1]
    ensures Wired(r.blocks, P, Null)
  {
    RecycleKeepsLinks(f, r, L, P);
    RecycleDetaches(f, r, L, P);
    forall i | 0 <= i < |P| ensures P[i] in r.blocks {
      assert LinkedAt(r.blocks, P, i);
    }
  }

  /** After the tail is taken off, the blocks before it keep their links,
      except that the new tail ends the list. */
  lemma RecycleKeepsLinks(f: Factory, r: Factory, L: seq<BlockId>, P: seq<BlockId>)
    requires Represents(f, L) && |L| > 0 && Recycled(f, r, L[|L| - 1])
    requires P == L[..|L| - 1]
    ensures forall i :: 0 <= i < |P| ==> LinkedAt(r.blocks, P, i)
  {
    var n := |L|;
    assert LinkedAt(f.blocks, L, n - 1);
    forall i | 0 <= i < n - 1 ensures LinkedAt(r.blocks, P, i) {
      assert LinkedAt(f.blocks, L, i);
      assert i > 0 ==> P[i - 1] == L[i - 1];
      assert i + 2 < n ==> P[i + 1] == L[i + 1];
    }
  }

  /** The recycled tail and every block that was off the list are detached. */
  lemma RecycleDetaches(f: Factory, r: Factory, L: seq<BlockId>, P: seq<BlockId>)
    requires Represents(f, L) && |L| > 0 && Recycled(f, r, L[|L| - 1])
    requires P == L[..|L| - 1]
    ensures forall k :: k in r.blocks && k !in P ==> Detached(r.blocks, k)
  {
    DistinctSplit(L, |L| - 1);
    forall k | k in r.blocks && k !in P ensures Detached(r.blocks, k) {
      if k != L[|L| - 1] {
        assert k !in L && Detached(f.blocks, k);
      }
    }
  }

  /** getBlock allocating: the new block takes the next arena slot, detached. */
  lemma GetBlockAllocates(f: Factory, L: seq<BlockId>)
    requires Represents(f, L) && !Recycles(f, L)
    ensures var r := GetBlock(f);
      && r.block !in f.blocks
      && Represents(r.factory, L)
      && r.factory.nBlocks == f.nBlocks + 1
      && r.factory.blocks.Keys == f.blocks.Keys + {r.block}
      && (forall x :: x in f.blocks ==> r.factory.blocks[x] == f.blocks[x])
  {
    assert f.nBlocks >= f.nCache && f.last.Ref? ==> !Recyclable(f, f.last.id);
    var r := Allocate(f).factory;
    assert GetBlock(f).factory == r;
    var b := f.nextId;
    assert b !in f.blocks;
    assert |r.blocks| == |f.blocks| + 1;
    forall i | 0 <= i < |L| ensures LinkedAt(r.blocks, L, i) {
      assert LinkedAt(f.blocks, L, i);
    }
    forall k | k in r.blocks && k !in L ensures Detached(r.blocks, k) {
      if k != b {
        assert Detached(f.blocks, k);
      }
    }
  }

  // ---------------------------------------------------------------------
  // deleteBlocks and freeUnused: dropping blocks from the tail
  // ---------------------------------------------------------------------

  /** The common epilogue of deleteBlocks and freeUnused: install the
      shortened arena and tail, cut the new tail's dangling `next` (or clear
      `first` when nothing is left), and count the freed blocks off nBlocks. */
  function CloseTail(f: Factory, blocks: map<BlockId, Block>, last: Link, freed: int): (r: Factory)
    ensures r.blocks.Keys == blocks.Keys && r.last == last
    ensures r.nBlocks == f.nBlocks - freed
    ensures r.drawID == f.drawID && r.nCache == f.nCache && r.nextId == f.nextId
  {
    var g := f.(blocks := blocks, last := last, nBlocks := f.nBlocks - freed);
    if last.Ref? then SetNext(g, last.id, Null) else g.(first := Null)
  }

  /** The arena after the blocks of L from position p on were deleted. */
  ghost function DropFrom(m: map<BlockId, Block>, L: seq<BlockId>, p: nat): map<BlockId, Block>
    requires p <= |L|
    decreases |L| - p
  {
    if p == |L| then m else DropFrom(m, L, p + 1) - {L[p]}
  }

  /** DropFrom removes exactly the blocks of the suffix and keeps the rest as they were. */
  lemma {:induction false} DropFromSpec(m: map<BlockId, Block>, L: seq<BlockId>, p: nat)
    requires p <= |L|
    ensures DropFrom(m, L, p).Keys == m.Keys - Ids(L[p..])
    ensures forall x :: x in DropFrom(m, L, p) ==> x in m && DropFrom(m, L, p)[x] == m[x]
    decreases |L| - p
  {
    if p < |L| {
      DropFromSpec(m, L, p + 1);
      IdsSuffix(L, p + 1);
    } else {
      assert L[p..] == [];
    }
  }

  /** The state of the tail-dropping loops after the blocks of L from
      position p on were deleted, in set terms. */
  ghost predicate DroppedTo(f: Factory, L: seq<BlockId>, p: nat, blocks: map<BlockId, Block>, last: Link) {
    && p <= |L|
    && blocks.Keys == f.blocks.Keys - Ids(L[p..])
    && (forall x :: x in blocks ==> x in f.blocks && blocks[x] == f.blocks[x])
    && last == Tail(L[..p])
  }

  /** One more step of the loops: the tail is still in the arena, unchanged,
      and its `prev` is the next tail. */
  lemma DropStep(f: Factory, L: seq<BlockId>, p: nat)
    requires Represents(f, L) && 0 < p <= |L|
    ensures L[p - 1] in DropFrom(f.blocks, L, p)
    ensures DropFrom(f.blocks, L, p)[L[p - 1]] == f.blocks[L[p - 1]]
    ensures f.blocks[L[p - 1]].prev == (if p == 1 then Null else Ref(L[p - 2]))
  {
    DropFromSpec(f.blocks, L, p);
    DistinctSplit(L, p);
    assert L[p - 1] in L[..p];
    assert LinkedAt(f.blocks, L, p - 1);
  }

  /** What the loops leave behind, once the epilogue has run: the first p
      blocks of L, consistently linked, and nothing else of the arena lost. */
  lemma DropResult(f: Factory, L: seq<BlockId>, i: nat, blocks: map<BlockId, Block>, last: Link, r: Factory)
    requires Represents(f, L) && i <= |L|
    requires blocks == DropFrom(f.blocks, L, |L| - i)
    requires last == (if i == |L| then Null else Ref(L[|L| - i - 1]))
    requires r == CloseTail(f, blocks, last, i)
    ensures Represents(r, L[..|L| - i])
  {
    var p := |L| - i;
    if p > 0 {
      DropStep(f, L, p);
    }
    DroppedCount(f.blocks, L, p);
    CloseTailMap(f, L, p, blocks, last);
    assert |r.blocks| == |r.blocks.Keys| == |blocks.Keys| == |blocks|;
    CloseTailWire(f, L, p, r);
  }

  /** The arena the loops leave behind: the suffix's blocks are gone, every
      other block is as it was. */
  lemma DropArena(f: Factory, L: seq<BlockId>, i: nat, blocks: map<BlockId, Block>, last: Link, r: Factory)
    requires i <= |L|
    requires blocks == DropFrom(f.blocks, L, |L| - i)
    requires r == CloseTail(f, blocks, last, i)
    ensures r.blocks.Keys == f.blocks.Keys - Ids(L[|L| - i..])
    ensures forall x :: x in r.blocks ==> x in f.blocks && r.blocks[x].drawID == f.blocks[x].drawID
  {
    DropFromSpec(f.blocks, L, |L| - i);
  }

  /** The freed blocks are exactly |L| - p arena slots. */
  lemma DroppedCount(m: map<BlockId, Block>, L: seq<BlockId>, p: nat)
    requires Distinct(L) && p <= |L|
    requires forall i :: 0 <= i < |L| ==> L[i] in m
    ensures |DropFrom(m, L, p)| == |m| - (|L| - p)
  {
    DropFromSpec(m, L, p);
    DistinctSplit(L, p);
    DistinctCard(L[p..]);
    assert Ids(L[p..]) <= m.Keys by {
      forall x | x in Ids(L[p..]) ensures x in m {
        var i :| 0 <= i < |L| - p && L[p..][i] == x;
        assert L[p + i] == x;
      }
    }
    SubsetCard(m.Keys, Ids(L[p..]));
    assert |DropFrom(m, L, p)| == |DropFrom(m, L, p).Keys|;
    assert |m| == |m.Keys|;
  }

  /** What CloseTail leaves in the arena: the kept blocks as they were, the
      new tail with its `next` cut. */
  ghost predicate ClosedAt(f: Factory, L: seq<BlockId>, p: nat, r: Factory) {
    && p <= |L|
    && r.blocks.Keys == f.blocks.Keys - Ids(L[p..])
    && r == f.(blocks := r.blocks, first := r.first, last := r.last, nBlocks := r.nBlocks)
    && r.first == Head(L[..p]) && r.last == Tail(L[..p])
    && (p > 0 ==> L[p - 1] in r.blocks && L[p - 1] in f.blocks &&
                  r.blocks[L[p - 1]] == f.blocks[L[p - 1]].(next := Null))
    && (forall x :: x in r.blocks && (p == 0 || x != L[p - 1]) ==> x in f.blocks && r.blocks[x] == f.blocks[x])
  }

  lemma CloseTailMap(f: Factory, L: seq<BlockId>, p: nat, blocks: map<BlockId, Block>, last: Link)
    requires p <= |L| && blocks == DropFrom(f.blocks, L, p) && f.first == Head(L)
    requires last == (if p == 0 then Null else Ref(L[p - 1]))
    requires p > 0 ==> L[p - 1] in blocks
    ensures ClosedAt(f, L, p, CloseTail(f, blocks, last, |L| - p))
  {
    DropFromSpec(f.blocks, L, p);
    assert p > 0 ==> L[..p][p - 1] == L[p - 1] && L[..p][0] == L[0];
  }

  /** Any arena ClosedAt describes encodes the list's first p blocks. */
  lemma CloseTailWire(f: Factory, L: seq<BlockId>, p: nat, r: Factory)
    requires Represents(f, L) && ClosedAt(f, L, p, r)
    requires r.nBlocks == |r.blocks| && r.nextId == f.nextId
    ensures Represents(r, L[..p])
  {
    var P := L[..p];
    DistinctSplit(L, p);
    CloseTailLinks(f, L, p, r, P);
    CloseTailDetached(f, L, p, r, P);
  }

  lemma CloseTailLinks(f: Factory, L: seq<BlockId>, p: nat, r: Factory, P: seq<BlockId>)
    requires Represents(f, L) && ClosedAt(f, L, p, r)
    requires P == L[..p]
    ensures forall i :: 0 <= i < |P| ==> P[i] in r.blocks && LinkedAt(r.blocks, P, i)
  {
    DistinctSplit(L, p);
    forall i | 0 <= i < p ensures P[i] in r.blocks && LinkedAt(r.blocks, P, i) {
      assert P[i] == L[i] && P[i] in P;
      assert LinkedAt(f.blocks, L, i);
      assert i > 0 ==> P[i - 1] == L[i - 1];
      assert i + 1 < p ==> P[i + 1] == L[i + 1];
    }
  }

  lemma CloseTailDetached(f: Factory, L: seq<BlockId>, p: nat, r: Factory, P: seq<BlockId>)
    requires Represents(f, L) && ClosedAt(f, L, p, r)
    requires P == L[..p]
    ensures forall k :: k in r.blocks && k !in P ==> Detached(r.blocks, k)
  {
    DistinctSplit(L, p);
    forall k | k in r.blocks && k !in P ensures Detached(r.blocks, k) {
      assert k !in L[p..];
      assert k !in L && Detached(f.blocks, k);
    }
  }

  /** Taking a subset out of a finite set removes as many elements as it has. */
  lemma SubsetCard(A: set<BlockId>, B: set<BlockId>)
    requires B <= A
    ensures |A - B| == |A| - |B|
  {
    assert A == (A - B) + B;
    assert (A - B) * B == {};
  }

  /** Blocks on a consistent list are counted in nBlocks. */
  lemma ListFits(f: Factory, L: seq<BlockId>)
    requires Represents(f, L)
    ensures |L| <= f.nBlocks
  {
    DistinctCard(L);
    assert Ids(L) <= f.blocks.Keys by {
      forall x | x in Ids(L) ensures x in f.blocks {
        assert L[IndexOf(L, x)] == x;
      }
    }
    SubsetCard(f.blocks.Keys, Ids(L));
    assert |f.blocks| == |f.blocks.Keys|;
  }

  /** The loop of deleteBlocks: delete tail blocks until n were deleted or
      none is left. */
  method DropCount(f: Factory, n: int, ghost L: seq<BlockId>)
      returns (blocks: map<BlockId, Block>, last: Link, i: int)
    requires Represents(f, L)
    ensures i == (if 0 <= n <= |L| then n else |L|)
    ensures blocks == DropFrom(f.blocks, L, |L| - i)
    ensures last == (if i == |L| then Null else Ref(L[|L| - i - 1]))
  {
    blocks := f.blocks;
    last := f.last;
    i := 0;
    while last.Ref? && i != n
      invariant 0 <= i <= |L|
      invariant n >= 0 ==> i <= n
      invariant blocks == DropFrom(f.blocks, L, |L| - i)
      invariant last == (if i == |L| then Null else Ref(L[|L| - i - 1]))
      decreases |L| - i
    {
      DropStep(f, L, |L| - i);
      var dead: set<BlockId> := {last.id};
      var temp := blocks[last.id].prev;
      blocks := blocks - dead;
      last := temp;
      i := i + 1;
    }
  }

  /** deleteBlocks(n): free up to n blocks from the tail (every block when n
      is negative) and return how many were freed. */
  method DeleteBlocks(f: Factory, n: int, ghost L: seq<BlockId>) returns (r: Factory, count: int)
    requires Represents(f, L)
    ensures count == (if 0 <= n <= |L| then n else |L|)
    ensures Represents(r, L[..|L| - count])
    ensures r.blocks.Keys == f.blocks.Keys - Ids(L[|L| - count..])
    ensures forall x :: x in r.blocks ==> x in f.blocks && r.blocks[x].drawID == f.blocks[x].drawID
    ensures r.nBlocks == f.nBlocks - count
    ensures r.drawID == f.drawID && r.nCache == f.nCache
  {
    var blocks, last, i := DropCount(f, n, L);
    r := CloseTail(f, blocks, last, i);
    count := i;
    DropResult(f, L, count, blocks, last, r);
    DropArena(f, L, count, blocks, last, r);
  }

  /** The loop of freeUnused: delete tail blocks while they are stale. The
      `i != nBlocks` guard of freeUnused never stops it early, since the
      list holds at most nBlocks blocks. */
  method DropStale(f: Factory, ghost L: seq<BlockId>)
      returns (blocks: map<BlockId, Block>, last: Link, i: int)
    requires Represents(f, L)
    ensures 0 <= i <= |L|
    ensures forall t :: |L| - i <= t < |L| ==> f.blocks[L[t]].drawID < f.drawID
    ensures i < |L| ==> f.blocks[L[|L| - i - 1]].drawID >= f.drawID
    ensures blocks == DropFrom(f.blocks, L, |L| - i)
    ensures last == (if i == |L| then Null else Ref(L[|L| - i - 1]))
  {
    ListFits(f, L);
    blocks := f.blocks;
    last := f.last;
    i := 0;
    if 0 < |L| {
      DropStep(f, L, |L|);
    }
    while last.Ref? && blocks[last.id].drawID < f.drawID && i != f.nBlocks
      invariant 0 <= i <= |L|
      invariant blocks == DropFrom(f.blocks, L, |L| - i)
      invariant last == (if i == |L| then Null else Ref(L[|L| - i - 1]))
      invariant i < |L| ==> L[|L| - i - 1] in blocks && blocks[L[|L| - i - 1]] == f.blocks[L[|L| - i - 1]]
      invariant forall t :: |L| - i <= t < |L| ==> f.blocks[L[t]].drawID < f.drawID
      decreases |L| - i
    {
      DropStep(f, L, |L| - i);
      ghost var t0 := |L| - i - 1;
      assert f.blocks[L[t0]].drawID < f.drawID;
      var dead: set<BlockId> := {last.id};
      var temp := blocks[last.id].prev;
      blocks := blocks - dead;
      last := temp;
      i := i + 1;
      if i < |L| {
        DropStep(f, L, |L| - i);
      }
    }
  }

  /** freeUnused(): free blocks from the tail while they were last drawn
      before the current frame, and return how many were freed. */
  method FreeUnused(f: Factory, ghost L: seq<BlockId>) returns (r: Factory, count: int)
    requires Represents(f, L)
    ensures 0 <= count <= |L|
    ensures forall i :: |L| - count <= i < |L| ==> f.blocks[L[i]].drawID < f.drawID
    ensures count < |L| ==> f.blocks[L[|L| - count - 1]].drawID >= f.drawID
    ensures Represents(r, L[..|L| - count])
    ensures r.blocks.Keys == f.blocks.Keys - Ids(L[|L| - count..])
    ensures forall x :: x in r.blocks ==> x in f.blocks && r.blocks[x].drawID == f.blocks[x].drawID
    ensures r.nBlocks == f.nBlocks - count
    ensures r.drawID == f.drawID && r.nCache == f.nCache
  {
    var blocks, last, i := DropStale(f, L);
    r := CloseTail(f, blocks, last, i);
    count := i;
    DropResult(f, L, count, blocks, last, r);
    DropArena(f, L, count, blocks, last, r);
  }

  // ---------------------------------------------------------------------
  // A concrete run
  // ---------------------------------------------------------------------

  /** With a budget of two: two blocks are allocated, the first is confirmed
      in frame 1, and a third request in frame 1 finds only that block on the
      list (the second was never linked). The tail is fresh, so the pool
      allocates past its budget instead of recycling. */
  lemma PastBudgetRun()
    ensures var f0 := NewFactory().(nCache := 2);
      var a1 := GetBlock(f0);
      var a2 := GetBlock(a1.factory);
      var m := MarkFirst(a2.factory.(drawID := 1), Ref(a1.block));
      var a3 := GetBlock(m.factory);
      && a1.block == 0 && a2.block == 1 && a2.factory.nBlocks == 2
      && m.ok && m.factory.first == Ref(0) && m.factory.last == Ref(0)
      && a3.block == 2 && a3.factory.nBlocks == 3 && a3.factory.last == Ref(0)
  {
  }

  /** The same run with the confirmation in frame 0 and the request in
      frame 1: the only listed block is now stale, so it is recycled and the
      list is left empty. */
  lemma RecycleRun()
    ensures var f0 := NewFactory().(nCache := 2);
      var a1 := GetBlock(f0);
      var a2 := GetBlock(a1.factory);
      var m := MarkFirst(a2.factory, Ref(a1.block));
      var a3 := GetBlock(m.factory.(drawID := 1));
      && a3.block == a1.block && a3.factory.nBlocks == 2
      && a3.factory.first == Null && a3.factory.last == Null
  {
  }
}
