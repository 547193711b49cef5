/** The binary heap of Go's container/heap, as the pool's nonce index and price index use it.
    A slice is a `seq`; the heap.Interface ordering is the order of an integer key. */
module Heap {

  function Parent(k: nat): nat
    requires k > 0
  {
    (k - 1) / 2
  }

  /** The element at `k` is not smaller than the one at its parent. */
  ghost predicate Edge<T>(h: seq<T>, key: T -> int, k: nat)
    requires 0 < k < |h|
  {
    key(h[k]) >= key(h[Parent(k)])
  }

  /** The first `n` slots form a heap, looking only at parents from `lo` up. */
  ghost predicate HeapFrom<T>(h: seq<T>, key: T -> int, lo: nat, n: nat)
    requires n <= |h|
  {
    forall k :: 0 < k < n && Parent(k) >= lo ==> Edge(h, key, k)
  }

  ghost predicate IsHeap<T>(h: seq<T>, key: T -> int) {
    HeapFrom(h, key, 0, |h|)
  }

  function Swap<T>(h: seq<T>, i: nat, j: nat): (r: seq<T>)
    requires i < |h| && j < |h|
    ensures |r| == |h| && r[i] == h[j] && r[j] == h[i]
    ensures forall k :: 0 <= k < |h| && k != i && k != j ==> r[k] == h[k]
    ensures multiset(r) == multiset(h)
  {
    h[i := h[j]][j := h[i]]
  }

  /** The root is a least element. */
  lemma {:induction false} RootIsLeast<T>(h: seq<T>, key: T -> int, k: nat)
    requires IsHeap(h, key) && k < |h|
    ensures key(h[k]) >= key(h[0])
  {
    if k > 0 {
      RootIsLeast(h, key, Parent(k));
      assert Edge(h, key, k);
    }
  }

  /** Every edge is in order except the one above `j`, and the children of `j` are in order with its parent. */
  ghost predicate Rising<T>(h: seq<T>, key: T -> int, j: nat)
    requires j < |h|
  {
    && (forall k :: 0 < k < |h| && k != j ==> Edge(h, key, k))
    && (j > 0 ==> forall k :: 0 < k < |h| && Parent(k) == j ==> key(h[k]) >= key(h[Parent(j)]))
  }

  lemma RiseStep<T>(h: seq<T>, key: T -> int, j: nat)
    requires 0 < j < |h| && Rising(h, key, j) && key(h[j]) < key(h[Parent(j)])
    ensures Rising(Swap(h, Parent(j), j), key, Parent(j))
  {
    var i := Parent(j);
    var r := Swap(h, i, j);
    hide Swap;
    forall k | 0 < k < |h| && k != i ensures Edge(r, key, k) {
      assert k != j ==> Edge(h, key, k);
    }
    if i > 0 {
      assert Edge(h, key, i);
      forall k | 0 < k < |h| && Parent(k) == i ensures key(r[k]) >= key(r[Parent(i)]) {
        assert k != j ==> Edge(h, key, k);
      }
    }
  }

  lemma RiseDone<T>(h: seq<T>, key: T -> int, j: nat)
    requires j < |h| && Rising(h, key, j) && (j == 0 || Edge(h, key, j))
    ensures IsHeap(h, key)
  {}

  /** Sift the element at `j0` towards the root; only its own parent edge may be out of order. */
  method Up<T>(h: seq<T>, key: T -> int, j0: nat) returns (r: seq<T>)
    requires j0 < |h| && Rising(h, key, j0)
    ensures IsHeap(r, key)
    ensures multiset(r) == multiset(h)
  {
    hide Rising, Swap, IsHeap;
    r := h;
    var j: nat := j0;
    while j > 0 && key(r[j]) < key(r[Parent(j)])
      invariant j < |h| == |r| && multiset(r) == multiset(h) && Rising(r, key, j)
      decreases j
    {
      RiseStep(r, key, j);
      r := Swap(r, Parent(j), j);
      j := Parent(j);
    }
    RiseDone(r, key, j);
  }

  /** The lesser child of `i` within the first `n` slots. */
  function LesserChild<T>(h: seq<T>, key: T -> int, i: nat, n: nat): (j: nat)
    requires 2 * i + 1 < n <= |h|
    ensures j < n && j > 0 && Parent(j) == i
  {
    if 2 * i + 2 < n && key(h[2 * i + 2]) < key(h[2 * i + 1]) then 2 * i + 2 else 2 * i + 1
  }

  lemma LesserChildIsLeast<T>(h: seq<T>, key: T -> int, i: nat, n: nat, k: nat)
    requires 2 * i + 1 < n <= |h| && 0 < k < n && Parent(k) == i
    ensures key(h[k]) >= key(h[LesserChild(h, key, i, n)])
  {
    assert k == 2 * i + 1 || k == 2 * i + 2;
  }

  /** What sifting down from `i0` has established when it stands at `i`: every edge is in order
      except those below `i` (and above `i0`, as long as nothing moved). */
  ghost predicate Sifting<T>(h: seq<T>, key: T -> int, i0: nat, i: nat, lo: nat, n: nat)
    requires i < n <= |h|
  {
    && (forall k :: 0 < k < n && Parent(k) >= lo && Parent(k) != i && (k != i0 || i != i0) ==> Edge(h, key, k))
    && (i > 0 && Parent(i) >= lo ==>
          forall k :: 0 < k < n && Parent(k) == i ==> key(h[k]) >= key(h[Parent(i)]))
  }

  lemma SiftStep<T>(h: seq<T>, key: T -> int, i0: nat, i: nat, lo: nat, n: nat)
    requires lo <= i0 <= i && 2 * i + 1 < n <= |h|
    requires Sifting(h, key, i0, i, lo, n)
    requires key(h[LesserChild(h, key, i, n)]) < key(h[i])
    ensures var j := LesserChild(h, key, i, n); Sifting(Swap(h, i, j), key, i0, j, lo, n)
  {
    var j := LesserChild(h, key, i, n);
    var r := Swap(h, i, j);
    forall k | 0 < k < n && Parent(k) >= lo && Parent(k) != j ensures Edge(r, key, k) {
      if Parent(k) == i {
        LesserChildIsLeast(h, key, i, n, k);
      } else if k != i {
        assert Edge(h, key, k);
      }
    }
    forall k | 0 < k < n && Parent(k) == j ensures key(r[k]) >= key(r[Parent(j)]) {
      assert Edge(h, key, k);
    }
  }

  lemma SiftDone<T>(h: seq<T>, key: T -> int, i0: nat, i: nat, lo: nat, n: nat)
    requires lo <= i0 <= i < n <= |h|
    requires Sifting(h, key, i0, i, lo, n)
    requires 2 * i + 1 < n ==> key(h[LesserChild(h, key, i, n)]) >= key(h[i])
    ensures forall k :: 0 < k < n && Parent(k) >= lo && k != i0 ==> Edge(h, key, k)
    ensures i > i0 > 0 && Parent(i0) >= lo ==> Edge(h, key, i0)
  {
    forall k | 0 < k < n && Parent(k) == i ensures Edge(h, key, k) {
      LesserChildIsLeast(h, key, i, n, k);
    }
  }

  /** Sift the element at `i0` towards the leaves of the first `n` slots. Only edges touching `i0`
      may be out of order, and its parent is in order with its children. */
  method Down<T>(h: seq<T>, key: T -> int, i0: nat, lo: nat, n: nat)
    returns (r: seq<T>, moved: bool)
    requires i0 < n <= |h| && lo <= i0
    requires Sifting(h, key, i0, i0, lo, n)
    ensures |r| == |h| && multiset(r) == multiset(h)
    ensures forall k :: n <= k < |h| ==> r[k] == h[k]
    ensures forall k :: 0 < k < n && Parent(k) >= lo && k != i0 ==> Edge(r, key, k)
    ensures moved && i0 > 0 && Parent(i0) >= lo ==> Edge(r, key, i0)
    ensures !moved ==> r == h
  {
    r := h;
    var i := i0;
    while 2 * i + 1 < n && key(r[LesserChild(r, key, i, n)]) < key(r[i])
      invariant i0 <= i < n && |r| == |h| && multiset(r) == multiset(h)
      invariant forall k :: n <= k < |h| ==> r[k] == h[k]
      invariant i == i0 ==> r == h
      invariant Sifting(r, key, i0, i, lo, n)
      decreases n - i
    {
      var j := LesserChild(r, key, i, n);
      SiftStep(r, key, i0, i, lo, n);
      r := Swap(r, i, j);
      i := j;
    }
    moved := i > i0;
    SiftDone(r, key, i0, i, lo, n);
  }

  /** heap.Init */
  method Init<T>(h: seq<T>, key: T -> int) returns (r: seq<T>)
    ensures IsHeap(r, key)
    ensures multiset(r) == multiset(h)
  {
    r := h;
    var i := |h| / 2;
    while i > 0
      invariant 0 <= i <= |h| / 2 && |r| == |h| && multiset(r) == multiset(h)
      invariant HeapFrom(r, key, i, |r|)
    {
      i := i - 1;
      forall k | 0 < k < |r| && Parent(k) >= i && k != i && Parent(k) != i ensures Edge(r, key, k) {}
      var moved;
      r, moved := Down(r, key, i, i, |r|);
    }
  }

  /** heap.Push */
  method Push<T>(h: seq<T>, key: T -> int, x: T) returns (r: seq<T>)
    requires IsHeap(h, key)
    ensures IsHeap(r, key)
    ensures multiset(r) == multiset(h) + multiset{x}
  {
    var g := h + [x];
    forall k | 0 < k < |g| && k != |h| ensures Edge(g, key, k) {
      assert Edge(h, key, k);
    }
    r := Up(g, key, |h|);
  }

  /** Moving the last element of a heap into slot `i` leaves only the edges at `i` in doubt. */
  lemma SwappedOut<T>(h: seq<T>, key: T -> int, i: nat)
    requires IsHeap(h, key) && i < |h| - 1
    ensures Sifting(Swap(h, i, |h| - 1), key, i, i, 0, |h| - 1)
  {
    var n := |h| - 1;
    var g := Swap(h, i, n);
    forall k | 0 < k < n && k != i && Parent(k) != i ensures Edge(g, key, k) {
      assert Edge(h, key, k);
    }
    if i > 0 {
      assert Edge(h, key, i);
      forall k | 0 < k < n && Parent(k) == i ensures key(g[k]) >= key(g[Parent(i)]) {
        assert Edge(h, key, k);
      }
    }
  }

  /** Cutting off the last slot does not touch the remaining edges. */
  lemma CutLast<T>(g: seq<T>, key: T -> int)
    requires |g| > 0
    ensures var n := |g| - 1;
            && (forall k :: 0 < k < n ==> Edge(g[..n], key, k) == Edge(g, key, k))
            && multiset(g) == multiset(g[..n]) + multiset{g[n]}
  {
    assert g == g[..|g| - 1] + [g[|g| - 1]];
  }

  /** heap.Remove */
  method Remove<T>(h: seq<T>, key: T -> int, i: nat) returns (r: seq<T>, x: T)
    requires IsHeap(h, key) && i < |h|
    ensures IsHeap(r, key)
    ensures x == h[i] && multiset(h) == multiset(r) + multiset{x}
  {
    x := h[i];
    if i == |h| - 1 {
      CutLast(h, key);
      r := h[..i];
    } else {
      var moved;
      r, moved := TakeOut(h, key, i);
      if !moved {
        r := FixUp(h, key, i, r);
      }
    }
  }

  /** The sift-down half of heap.Remove: slot `i` takes the last element, which then sinks. */
  method TakeOut<T>(h: seq<T>, key: T -> int, i: nat) returns (front: seq<T>, moved: bool)
    requires IsHeap(h, key) && i < |h| - 1
    ensures |front| == |h| - 1 && multiset(h) == multiset(front) + multiset{h[i]}
    ensures forall k :: 0 < k < |front| && (k != i || moved) ==> Edge(front, key, k)
    ensures !moved ==> front == Swap(h, i, |h| - 1)[..|h| - 1]
  {
    hide Swap, Sifting, Edge, IsHeap;
    var n := |h| - 1;
    SwappedOut(h, key, i);
    var g := Swap(h, i, n);
    g, moved := Down(g, key, i, 0, n);
    assert g[n] == h[i];
    CutLast(g, key);
    front := g[..n];
  }

  /** The sift-up half of heap.Remove, when nothing had to move down. */
  method FixUp<T>(h: seq<T>, key: T -> int, i: nat, front: seq<T>) returns (r: seq<T>)
    requires IsHeap(h, key) && i < |h| - 1
    requires front == Swap(h, i, |h| - 1)[..|h| - 1]
    requires forall k :: 0 < k < |front| && k != i ==> Edge(front, key, k)
    ensures IsHeap(r, key)
    ensures multiset(r) == multiset(front)
  {
    SwappedOut(h, key, i);
    r := Up(front, key, i);
  }

  /** heap.Pop: takes out a least element. */
  method Pop<T>(h: seq<T>, key: T -> int) returns (r: seq<T>, x: T)
    requires IsHeap(h, key) && |h| > 0
    ensures IsHeap(r, key)
    ensures x == h[0] && multiset(h) == multiset(r) + multiset{x}
    ensures forall y :: y in h ==> key(y) >= key(x)
  {
    forall y | y in h ensures key(y) >= key(h[0]) {
      var k :| 0 <= k < |h| && h[k] == y;
      RootIsLeast(h, key, k);
    }
    r, x := Remove(h, key, 0);
  }
}
