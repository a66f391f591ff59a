/** The star-block recency list seen as a plain sequence of block ids, front
    (most recently confirmed) first. The pool in StarBlockFactory keeps the
    list as `prev`/`next` links; this module holds the sequence operations that
    state what its relinking is meant to do. */
module RecencyList {

  /** Stable handle of a block in the pool's arena (stands for a StarBlock pointer). */
  type BlockId = nat

  /** A possibly-null block pointer. */
  datatype Link = Null | Ref(id: BlockId)

  ghost predicate Distinct(L: seq<BlockId>) {
    forall i, j :: 0 <= i < j < |L| ==> L[i] != L[j]
  }

  /** What `first` must hold for the list L. */
  function Head(L: seq<BlockId>): Link {
    if |L| == 0 then Null else Ref(L[0])
  }

  /** What `last` must hold for the list L. */
  function Tail(L: seq<BlockId>): Link {
    if |L| == 0 then Null else Ref(L[|L| - 1])
  }

  /** The `prev` link the block at position i of L must carry. */
  function PrevAt(L: seq<BlockId>, i: nat): Link
    requires i < |L|
  {
    if i == 0 then Null else Ref(L[i - 1])
  }

  /** The `next` link the block at position i of L must carry. */
  function NextAt(L: seq<BlockId>, i: nat): Link
    requires i < |L|
  {
    if i + 1 == |L| then Null else Ref(L[i + 1])
  }

  /** Position of the first occurrence of x in L. */
  function IndexOf(L: seq<BlockId>, x: BlockId): (i: nat)
    requires x in L
    ensures i < |L| && L[i] == x
    ensures forall j :: 0 <= j < i ==> L[j] != x
  {
    if L[0] == x then 0 else 1 + IndexOf(L[1..], x)
  }

  lemma IndexOfDistinct(L: seq<BlockId>, i: nat)
    requires Distinct(L) && i < |L|
    ensures IndexOf(L, L[i]) == i
  {
  }

  /** L with position j cut out. */
  function Remove(L: seq<BlockId>, j: nat): seq<BlockId>
    requires j < |L|
  {
    L[..j] + L[j + 1..]
  }

  /** L with block x taken out (L itself when x is not linked). */
  function Without(L: seq<BlockId>, x: BlockId): seq<BlockId> {
    if x in L then Remove(L, IndexOf(L, x)) else L
  }

  /** M with b inserted directly after position k. */
  function InsertAfter(M: seq<BlockId>, k: nat, b: BlockId): seq<BlockId>
    requires k < |M|
  {
    M[..k + 1] + [b] + M[k + 1..]
  }

  /** The list after block b is confirmed: b at the front, the rest in order. */
  function MoveToFront(L: seq<BlockId>, b: BlockId): seq<BlockId> {
    [b] + Without(L, b)
  }

  /** The list after b is placed directly behind the linked block a. */
  function MoveAfter(L: seq<BlockId>, a: BlockId, b: BlockId): seq<BlockId>
    requires a in L && a != b
  {
    WithoutKeeps(L, b, a);
    var M := Without(L, b);
    InsertAfter(M, IndexOf(M, a), b)
  }

  /** Where Remove puts each remaining element. */
  lemma RemoveAt(L: seq<BlockId>, j: nat)
    requires j < |L|
    ensures |Remove(L, j)| == |L| - 1
    ensures forall i :: 0 <= i < j ==> Remove(L, j)[i] == L[i]
    ensures forall i :: j <= i < |L| - 1 ==> Remove(L, j)[i] == L[i + 1]
  {
  }

  lemma RemoveDistinct(L: seq<BlockId>, j: nat)
    requires Distinct(L) && j < |L|
    ensures Distinct(Remove(L, j))
    ensures L[j] !in Remove(L, j)
    ensures forall y :: y in Remove(L, j) <==> y in L && y != L[j]
  {
    var R := Remove(L, j);
    assert forall i :: 0 <= i < |R| ==> R[i] == (if i < j then L[i] else L[i + 1]);
    forall y | y in L && y != L[j] ensures y in R {
      var i := IndexOf(L, y);
      if i < j { assert R[i] == y; } else { assert R[i - 1] == y; }
    }
  }

  /** Taking b out keeps every other block and the distinctness of the list. */
  lemma WithoutKeeps(L: seq<BlockId>, b: BlockId, a: BlockId)
    ensures a in L && a != b ==> a in Without(L, b)
    ensures Distinct(L) ==> Distinct(Without(L, b)) && b !in Without(L, b)
  {
    if b in L {
      var j := IndexOf(L, b);
      var R := Remove(L, j);
      assert forall i :: 0 <= i < |R| ==> R[i] == (if i < j then L[i] else L[i + 1]);
      if a in L && a != b {
        var i := IndexOf(L, a);
        if i < j { assert R[i] == a; } else { assert R[i - 1] == a; }
      }
      if Distinct(L) {
        RemoveDistinct(L, j);
      }
    }
  }

  /** Where InsertAfter puts each element. */
  lemma InsertAfterAt(M: seq<BlockId>, k: nat, b: BlockId)
    requires k < |M|
    ensures |InsertAfter(M, k, b)| == |M| + 1
    ensures forall i :: 0 <= i <= k ==> InsertAfter(M, k, b)[i] == M[i]
    ensures InsertAfter(M, k, b)[k + 1] == b
    ensures forall i :: k + 1 < i <= |M| ==> InsertAfter(M, k, b)[i] == M[i - 1]
  {
  }

  /** Inserting keeps every block of the list and adds b. */
  lemma InsertAfterHas(M: seq<BlockId>, k: nat, b: BlockId)
    requires k < |M|
    ensures b in InsertAfter(M, k, b)
    ensures forall y :: y in M ==> y in InsertAfter(M, k, b)
  {
    InsertAfterAt(M, k, b);
    var L := InsertAfter(M, k, b);
    forall y | y in M ensures y in L {
      var j := IndexOf(M, y);
      if j <= k { assert L[j] == y; } else { assert L[j + 1] == y; }
    }
  }

  /** InsertAfter keeps the head, and moves the tail only when inserting after it. */
  lemma InsertAfterEnds(M: seq<BlockId>, k: nat, b: BlockId)
    requires k < |M|
    ensures Head(InsertAfter(M, k, b)) == Head(M)
    ensures Tail(InsertAfter(M, k, b)) == if k + 1 == |M| then Ref(b) else Tail(M)
  {
    InsertAfterAt(M, k, b);
  }

  lemma InsertAfterDistinct(M: seq<BlockId>, k: nat, b: BlockId)
    requires Distinct(M) && k < |M| && b !in M
    ensures Distinct(InsertAfter(M, k, b))
  {
    var L := InsertAfter(M, k, b);
    assert forall i :: 0 <= i < |L| ==>
      L[i] == (if i <= k then M[i] else if i == k + 1 then b else M[i - 1]);
  }

  /** The blocks on list L. */
  function Ids(L: seq<BlockId>): set<BlockId> {
    set x | x in L
  }

  /** Distinct lists contain as many different ids as they are long. */
  lemma {:induction false} DistinctCard(L: seq<BlockId>)
    requires Distinct(L)
    ensures |Ids(L)| == |L|
  {
    if |L| > 0 {
      var rest := L[1..];
      assert Distinct(rest);
      DistinctCard(rest);
      assert forall x :: x in L <==> x == L[0] || x in rest;
      assert Ids(L) == Ids(rest) + {L[0]};
      assert L[0] !in Ids(rest);
    }
  }

  /** After MoveToFront the block is first and the other blocks keep their order. */
  lemma MoveToFrontOrder(L: seq<BlockId>, b: BlockId)
    requires Distinct(L)
    ensures MoveToFront(L, b)[0] == b
    ensures Distinct(MoveToFront(L, b))
    ensures Without(MoveToFront(L, b), b) == Without(L, b)
  {
    WithoutKeeps(L, b, b);
    PrependDistinct(Without(L, b), b);
    RemoveFront(Without(L, b), b);
  }

  lemma PrependDistinct(W: seq<BlockId>, b: BlockId)
    requires Distinct(W) && b !in W
    ensures Distinct([b] + W)
  {
    forall i, j | 0 <= i < j < |[b] + W| ensures ([b] + W)[i] != ([b] + W)[j] {
      assert ([b] + W)[j] == W[j - 1];
    }
  }

  lemma RemoveFront(W: seq<BlockId>, b: BlockId)
    ensures Without([b] + W, b) == W
  {
    var L' := [b] + W;
    assert IndexOf(L', b) == 0;
    assert L'[..0] + L'[1..] == W;
  }

  /** After MoveAfter, b sits directly behind a and the other blocks keep their order. */
  lemma MoveAfterOrder(L: seq<BlockId>, a: BlockId, b: BlockId)
    requires Distinct(L) && a in L && a != b
    ensures Distinct(MoveAfter(L, a, b))
    ensures b in MoveAfter(L, a, b) && a in MoveAfter(L, a, b)
    ensures IndexOf(MoveAfter(L, a, b), b) == IndexOf(MoveAfter(L, a, b), a) + 1
    ensures Without(MoveAfter(L, a, b), b) == Without(L, b)
  {
    WithoutKeeps(L, b, a);
    var M := Without(L, b);
    var k := IndexOf(M, a);
    var L' := InsertAfter(M, k, b);
    InsertAfterDistinct(M, k, b);
    assert L'[k] == a && L'[k + 1] == b;
    IndexOfDistinct(L', k);
    IndexOfDistinct(L', k + 1);
    assert Remove(L', k + 1) == M;
  }

  /** Placing a block behind its own predecessor leaves the list as it was. */
  lemma MoveAfterInPlace(L: seq<BlockId>, j: nat)
    requires Distinct(L) && 0 < j < |L|
    ensures MoveAfter(L, L[j - 1], L[j]) == L
  {
    IndexOfDistinct(L, j);
    var M := Remove(L, j);
    RemoveDistinct(L, j);
    RemoveAt(L, j);
    assert M[j - 1] == L[j - 1];
    IndexOfDistinct(M, j - 1);
    assert Without(L, L[j]) == M;
    assert M[..j] == L[..j];
    assert M[j..] == L[j + 1..];
    assert InsertAfter(M, j - 1, L[j]) == L[..j] + [L[j]] + L[j + 1..];
    assert L[..j] + [L[j]] + L[j + 1..] == L;
  }

  /** Dropping the front element of a suffix drops one id. */
  lemma IdsSuffix(L: seq<BlockId>, p: nat)
    requires 0 < p <= |L|
    ensures Ids(L[p - 1..]) == Ids(L[p..]) + {L[p - 1]}
  {
    assert L[p - 1..] == [L[p - 1]] + L[p..];
  }

  /** Suffixes and prefixes of a distinct list are distinct, and share no block. */
  lemma DistinctSplit(L: seq<BlockId>, p: nat)
    requires Distinct(L) && p <= |L|
    ensures Distinct(L[..p]) && Distinct(L[p..])
    ensures forall x :: x in L[..p] ==> x !in Ids(L[p..])
  {
    forall x | x in L[..p] ensures x !in Ids(L[p..]) {
      var i :| 0 <= i < p && L[..p][i] == x;
    }
  }

  /** Moving the first block to the front leaves the list as it was. */
  lemma MoveToFrontOfFirst(L: seq<BlockId>)
    requires Distinct(L) && |L| > 0
    ensures MoveToFront(L, L[0]) == L
  {
    IndexOfDistinct(L, 0);
    assert Remove(L, 0) == L[1..];
  }
}
