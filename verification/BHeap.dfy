/** The binary min-heap of the routing layer.  Heap slots and graph nodes are records of the same
    type that point at each other: a slot's handler designates the node it stands for, a node's
    handler designates the slot it is believed to sit in. */
module BHeap {
  import opened Metrics

  /** A pointer into the partner array. */
  datatype Pointer = Null | At(index: nat)

  datatype NodeDistance = NodeDistance(node: nat, distance: NFMetric, handler: Pointer)

  /** The value of both arrays together with the number of live slots. */
  datatype Heap = Heap(graph: seq<NodeDistance>, handlers: seq<NodeDistance>, size: nat)

  /** Every slot designates a node, and no more slots are live than there are. */
  ghost predicate Sound(h: Heap) {
    && |h.graph| == |h.handlers|
    && h.size <= |h.handlers|
    && forall s | 0 <= s < |h.handlers| :: h.handlers[s].handler.At? && h.handlers[s].handler.index < |h.graph|
  }

  // ---------- The operations on values ----------

  function Left(i: nat): nat { i * 2 + 1 }

  function Right(i: nat): nat { (i + 1) * 2 }

  function Parent(i: nat): nat
    requires i > 0
  {
    (i - 1) / 2
  }

  /** Redirects the back pointer of the node that slot s stands for. */
  ghost function Redirect(h: Heap, s: nat, target: nat): (r: Heap)
    requires Sound(h) && s < |h.handlers|
    ensures Sound(r)
  {
    var v := h.handlers[s].handler.index;
    h.(graph := h.graph[v := h.graph[v].(handler := At(target))])
  }

  ghost function Swapped(h: Heap, i: nat, j: nat): (r: Heap)
    requires Sound(h) && i < |h.handlers| && j < |h.handlers|
    ensures Sound(r) && r.size == h.size && |r.graph| == |h.graph|
  {
    var h1 := Redirect(Redirect(h, i, j), j, i);
    h1.(handlers := h.handlers[i := h.handlers[j]][j := h.handlers[i]])
  }

  /** The slot among i and its live children that holds the least key. */
  ghost function Least(h: Heap, i: nat): (least: nat)
    requires Sound(h) && i < |h.handlers|
    ensures least == i || (least == Left(i) < h.size) || (least == Right(i) < h.size)
  {
    var a := if Left(i) < h.size && h.handlers[Left(i)].distance < h.handlers[i].distance then Left(i) else i;
    if Right(i) < h.size && h.handlers[Right(i)].distance < h.handlers[a].distance then Right(i) else a
  }

  ghost function Heapified(h: Heap, i: nat): (r: Heap)
    requires Sound(h) && (i < |h.handlers| || h.size <= i)
    ensures Sound(r) && r.size == h.size && |r.graph| == |h.graph|
    decreases |h.handlers| - i
  {
    if i < h.size && Least(h, i) != i then Heapified(Swapped(h, i, Least(h, i)), Least(h, i)) else h
  }

  /** Heapify at k, k-1, ..., 0. */
  ghost function HeapifiedDown(h: Heap, k: nat): (r: Heap)
    requires Sound(h) && k <= |h.handlers|
    ensures Sound(r) && r.size == h.size && |r.graph| == |h.graph|
    decreases k
  {
    if k == 0 then Heapified(h, 0) else HeapifiedDown(Heapified(h, k), k - 1)
  }

  ghost function Built(h: Heap): (r: Heap)
    requires Sound(h)
    ensures Sound(r) && r.size == |h.handlers| && |r.graph| == |h.graph|
  {
    HeapifiedDown(h.(size := |h.handlers|), |h.handlers| / 2)
  }

  ghost function Rebuilt(h: Heap): (r: Heap)
    requires Sound(h)
    ensures Sound(r) && r.size == h.size && |r.graph| == |h.graph|
  {
    HeapifiedDown(h, h.size / 2)
  }

  /** Removes slot 0.  The source moves the last live slot to the root and leaves the back pointer
      of its node as it was; with `restoring` that back pointer is redirected to the root first. */
  ghost function DropRoot(h: Heap, restoring: bool): (r: Heap)
    requires Sound(h) && h.size > 0
    ensures Sound(r) && r.size == h.size - 1 && |r.graph| == |h.graph|
  {
    var last := h.size - 1;
    var h1 := if restoring then Redirect(h, last, 0) else h;
    h1.(handlers := h.handlers[0 := h.handlers[last]], size := last)
  }

  ghost function Extracted(h: Heap, restoring: bool): (r: Heap)
    requires Sound(h) && h.size > 0
    ensures Sound(r) && r.size == h.size - 1 && |r.graph| == |h.graph|
  {
    Heapified(DropRoot(h, restoring), 0)
  }

  ghost function SiftedUp(h: Heap, i: nat): (r: Heap)
    requires Sound(h) && i < |h.handlers|
    ensures Sound(r) && r.size == h.size && |r.graph| == |h.graph|
    decreases i
  {
    if i > 0 && h.handlers[Parent(i)].distance > h.handlers[i].distance
    then SiftedUp(Swapped(h, i, Parent(i)), Parent(i)) else h
  }

  ghost function WithKey(h: Heap, i: nat, key: NFMetric): (r: Heap)
    requires Sound(h) && i < |h.handlers|
    ensures Sound(r) && r.size == h.size && |r.graph| == |h.graph|
  {
    h.(handlers := h.handlers[i := h.handlers[i].(distance := key)])
  }

  ghost function Decreased(h: Heap, i: nat, key: NFMetric): (r: Heap)
    requires Sound(h) && i < |h.handlers|
    ensures Sound(r) && r.size == h.size && |r.graph| == |h.graph|
  {
    if key > h.handlers[i].distance then h else SiftedUp(WithKey(h, i, key), i)
  }

  // ---------- Heap order ----------

  ghost function Key(h: Heap, s: nat): NFMetric
    requires s < |h.handlers|
  {
    h.handlers[s].distance
  }

  /** From slot lo on, no live slot is larger than its children. */
  ghost predicate OrderedFrom(h: Heap, lo: nat)
    requires Sound(h)
  {
    forall c: nat | 0 < c < h.size && lo <= Parent(c) :: Key(h, Parent(c)) <= Key(h, c)
  }

  ghost predicate IsMinHeap(h: Heap)
    requires Sound(h)
  {
    OrderedFrom(h, 0)
  }

  /** Ordered from lo on, except that slot i may exceed its children; those are still no smaller
      than the parent of i. */
  ghost predicate OrderedFromExcept(h: Heap, lo: nat, i: nat)
    requires Sound(h)
  {
    && (forall c: nat | 0 < c < h.size && lo <= Parent(c) && Parent(c) != i :: Key(h, Parent(c)) <= Key(h, c))
    && (forall c: nat | 0 < c < h.size && Parent(c) == i && 0 < i && lo <= Parent(i) :: Key(h, Parent(i)) <= Key(h, c))
  }

  lemma LeastIsLeast(h: Heap, i: nat, c: nat)
    requires Sound(h) && i < h.size && 0 < c < h.size && Parent(c) == i
    ensures Key(h, Least(h, i)) <= Key(h, c) && Key(h, Least(h, i)) <= Key(h, i)
    ensures Least(h, i) != i ==> Parent(Least(h, i)) == i && Key(h, Least(h, i)) < Key(h, i)
  {
    assert c == Left(i) || c == Right(i);
  }

  lemma SwapKeys(h: Heap, i: nat, j: nat, s: nat)
    requires Sound(h) && i < |h.handlers| && j < |h.handlers| && s < |h.handlers|
    ensures Key(Swapped(h, i, j), s) == if s == j then Key(h, i) else if s == i then Key(h, j) else Key(h, s)
  {
  }

  /** Exchanging slot i with its least child moves the only violation down to that child. */
  lemma SwapWithLeast(h: Heap, lo: nat, i: nat)
    requires Sound(h) && lo <= i < h.size && Least(h, i) != i
    requires OrderedFromExcept(h, lo, i)
    ensures OrderedFromExcept(Swapped(h, i, Least(h, i)), lo, Least(h, i))
  {
    hide Swapped, Least;
    var least := Least(h, i);
    var h1 := Swapped(h, i, least);
    LeastIsLeast(h, i, least);
    forall c: nat | 0 < c < h1.size && lo <= Parent(c) && Parent(c) != least
      ensures Key(h1, Parent(c)) <= Key(h1, c)
    {
      SwapKeys(h, i, least, c);
      SwapKeys(h, i, least, Parent(c));
      if Parent(c) == i {
        LeastIsLeast(h, i, c);
      }
    }
    forall c: nat | 0 < c < h1.size && Parent(c) == least
      ensures Key(h1, Parent(least)) <= Key(h1, c)
    {
      SwapKeys(h, i, least, c);
      SwapKeys(h, i, least, i);
      assert Key(h, least) <= Key(h, c);
    }
  }

  /** Heapify repairs a heap in which only its argument violates the order. */
  lemma {:induction false} HeapifyOrders(h: Heap, lo: nat, i: nat)
    requires Sound(h) && lo <= i && (i < |h.handlers| || h.size <= i)
    requires OrderedFromExcept(h, lo, i)
    ensures OrderedFrom(Heapified(h, i), lo)
    decreases |h.handlers| - i
  {
    if i < h.size && Least(h, i) != i {
      SwapWithLeast(h, lo, i);
      HeapifyOrders(Swapped(h, i, Least(h, i)), lo, Least(h, i));
    } else {
      forall c: nat | 0 < c < h.size && Parent(c) == i
        ensures Key(h, i) <= Key(h, c)
      {
        LeastIsLeast(h, i, c);
      }
    }
  }

  lemma {:induction false} HeapifyDownOrders(h: Heap, k: nat)
    requires Sound(h) && k <= |h.handlers|
    requires OrderedFrom(h, k + 1)
    ensures IsMinHeap(HeapifiedDown(h, k))
    decreases k
  {
    hide OrderedFrom, OrderedFromExcept, Heapified;
    OrderedBelow(h, k);
    HeapifyOrders(h, k, k);
    if k == 0 {
    } else {
      HeapifyDownOrders(Heapified(h, k), k - 1);
    }
  }

  lemma OrderedBelow(h: Heap, k: nat)
    requires Sound(h) && OrderedFrom(h, k + 1)
    ensures OrderedFromExcept(h, k, k)
  {
  }

  /** Whatever the keys are, Rebuild makes the live prefix a min-heap again, and so does Build. */
  lemma RebuildMakesMinHeap(h: Heap)
    requires Sound(h)
    ensures IsMinHeap(Rebuilt(h))
    ensures IsMinHeap(Built(h))
  {
    HeapifyDownOrders(h, h.size / 2);
    HeapifyDownOrders(h.(size := |h.handlers|), |h.handlers| / 2);
  }

  lemma {:induction false} RootIsMinimal(h: Heap, s: nat)
    requires Sound(h) && IsMinHeap(h) && s < h.size
    ensures h.handlers[0].distance <= h.handlers[s].distance
  {
    if s == 0 {
    } else {
      RootIsMinimal(h, Parent(s));
      assert Key(h, Parent(s)) <= Key(h, s);
    }
  }

  lemma ExtractMinKeepsOrder(h: Heap, restoring: bool)
    requires Sound(h) && h.size > 0 && IsMinHeap(h)
    ensures IsMinHeap(Extracted(h, restoring))
  {
    var h1 := DropRoot(h, restoring);
    forall c: nat | 0 < c < h1.size && Parent(c) != 0
      ensures Key(h1, Parent(c)) <= Key(h1, c)
    {
      assert Key(h, Parent(c)) <= Key(h, c);
    }
    HeapifyOrders(h1, 0, 0);
  }

  /** Everything is ordered except that slot i may be smaller than its parent. */
  ghost predicate OrderedExceptAbove(h: Heap, i: nat)
    requires Sound(h)
  {
    && (forall c: nat | 0 < c < h.size && c != i :: Key(h, Parent(c)) <= Key(h, c))
    && (forall c: nat | 0 < c < h.size && 0 < i && Parent(c) == i && Parent(i) < h.size ::
         Key(h, Parent(i)) <= Key(h, c))
  }

  lemma {:induction false} SiftUpOrders(h: Heap, i: nat)
    requires Sound(h) && i < h.size && OrderedExceptAbove(h, i)
    ensures IsMinHeap(SiftedUp(h, i))
    decreases i
  {
    if i > 0 && h.handlers[Parent(i)].distance > h.handlers[i].distance {
      var h1 := Swapped(h, i, Parent(i));
      forall c: nat | 0 < c < h1.size
        ensures c != Parent(i) ==> Key(h1, Parent(c)) <= Key(h1, c)
        ensures 0 < Parent(i) && Parent(c) == Parent(i) ==> Key(h1, Parent(Parent(i))) <= Key(h1, c)
      {
        SwapKeys(h, i, Parent(i), c);
        SwapKeys(h, i, Parent(i), Parent(c));
        if Parent(i) > 0 {
          SwapKeys(h, i, Parent(i), Parent(Parent(i)));
          assert Key(h, Parent(Parent(i))) <= Key(h, Parent(i));
        }
      }
      SiftUpOrders(h1, Parent(i));
    }
  }

  /** Lowering a live key and sifting it up keeps the min-heap; raising a key is refused. */
  lemma DecreaseKeepsOrder(h: Heap, i: nat, key: NFMetric)
    requires Sound(h) && i < h.size && IsMinHeap(h)
    ensures IsMinHeap(Decreased(h, i, key))
    ensures key > h.handlers[i].distance ==> Decreased(h, i, key) == h
  {
    if key <= h.handlers[i].distance {
      var h1 := WithKey(h, i, key);
      forall c: nat | 0 < c < h1.size
        ensures c != i ==> Key(h1, Parent(c)) <= Key(h1, c)
        ensures 0 < i && Parent(c) == i ==> Key(h1, Parent(i)) <= Key(h1, c)
      {
        assert Key(h, Parent(c)) <= Key(h, c);
        if i > 0 {
          assert Key(h, Parent(i)) <= Key(h, i);
        }
      }
      SiftUpOrders(h1, i);
    }
  }

  // ---------- What rearranging the heap leaves alone ----------

  /** Slots carry the label of the node they point at, and live labels are distinct. */
  ghost predicate Labelled(h: Heap) {
    && Sound(h)
    && (forall s | 0 <= s < |h.handlers| :: h.handlers[s].handler == At(h.handlers[s].node))
    && (forall s, t | 0 <= s < t < h.size :: h.handlers[s].node != h.handlers[t].node)
  }

  /** Forward and back pointers are mutually inverse on the live slots. */
  ghost predicate BackLinked(h: Heap)
    requires Sound(h)
  {
    forall s | 0 <= s < h.size :: h.graph[h.handlers[s].handler.index].handler == At(s)
  }

  /** Live keys agree with the distances of their nodes. */
  ghost predicate Synced(h: Heap)
    requires Sound(h)
  {
    forall s | 0 <= s < h.size :: h.handlers[s].distance == h.graph[h.handlers[s].handler.index].distance
  }

  /** The nodes that still have a live slot. */
  ghost function Live(h: Heap): set<nat>
    requires Sound(h)
  {
    set s | 0 <= s < h.size :: h.handlers[s].node
  }

  /** Nodes keep their number and distance, and no back pointer becomes null or leaves the heap. */
  ghost predicate SameNodes(h: Heap, h': Heap) {
    && |h'.graph| == |h.graph|
    && forall v | 0 <= v < |h.graph| ::
         && h'.graph[v].node == h.graph[v].node
         && h'.graph[v].distance == h.graph[v].distance
         && (h'.graph[v].handler == h.graph[v].handler
              || (h'.graph[v].handler.At? && h'.graph[v].handler.index < |h.handlers|))
  }

  /** h' permutes the live (node, key) records of h; no distance, label or dead slot changes, no
      pointer becomes null, and pointers that were mutually inverse still are. */
  ghost predicate Rearranged(h: Heap, h': Heap)
    requires Sound(h) && Sound(h')
  {
    && h'.size == h.size && |h'.graph| == |h.graph|
    && SameNodes(h, h')
    && multiset(h'.handlers[..h.size]) == multiset(h.handlers[..h.size])
    && h'.handlers[h.size..] == h.handlers[h.size..]
    && (Labelled(h) ==> Labelled(h'))
    && Live(h') == Live(h)
    && (Labelled(h) && BackLinked(h) ==> BackLinked(h'))
    && (Labelled(h) && Synced(h) ==> Synced(h'))
  }

  lemma SwapRearranges(h: Heap, i: nat, j: nat)
    requires Sound(h) && i < h.size && j < h.size && i != j
    ensures Rearranged(h, Swapped(h, i, j))
  {
    SwapKeepsNodes(h, i, j);
    SwapMultiset(h.handlers, i, j, h.size);
    SwapLive(h, i, j);
    if Labelled(h) {
      SwapKeepsLabels(h, i, j);
      if BackLinked(h) {
        SwapKeepsBackLinks(h, i, j);
      }
      if Synced(h) {
        SwapKeepsSync(h, i, j);
      }
    }
  }

  lemma SwapKeepsNodes(h: Heap, i: nat, j: nat)
    requires Sound(h) && i < h.size && j < h.size && i != j
    ensures var h' := Swapped(h, i, j);
            && SameNodes(h, h')
            && h'.handlers == h.handlers[i := h.handlers[j]][j := h.handlers[i]]
            && h'.handlers[h.size..] == h.handlers[h.size..]
  {
  }

  lemma SwapKeepsLabels(h: Heap, i: nat, j: nat)
    requires Labelled(h) && i < h.size && j < h.size && i != j
    ensures Labelled(Swapped(h, i, j))
  {
  }

  /** Swap keeps forward and back pointers mutually inverse. */
  lemma SwapKeepsBackLinks(h: Heap, i: nat, j: nat)
    requires Labelled(h) && BackLinked(h) && i < h.size && j < h.size && i != j
    ensures BackLinked(Swapped(h, i, j))
  {
    var h' := Swapped(h, i, j);
    forall s | 0 <= s < h.size
      ensures h'.graph[h'.handlers[s].handler.index].handler == At(s)
    {
      assert h.handlers[i].node != h.handlers[j].node;
      assert h.handlers[s].handler == At(h.handlers[s].node);
    }
  }

  lemma SwapKeepsSync(h: Heap, i: nat, j: nat)
    requires Labelled(h) && Synced(h) && i < h.size && j < h.size && i != j
    ensures Synced(Swapped(h, i, j))
  {
  }

  lemma SwapMultiset(s: seq<NodeDistance>, i: nat, j: nat, n: nat)
    requires i < n <= |s| && j < n && i != j
    ensures multiset(s[i := s[j]][j := s[i]][..n]) == multiset(s[..n])
  {
    var t := s[..n];
    assert s[i := s[j]][j := s[i]][..n] == t[i := t[j]][j := t[i]];
  }

  lemma SwapLive(h: Heap, i: nat, j: nat)
    requires Sound(h) && i < h.size && j < h.size && i != j
    ensures Live(Swapped(h, i, j)) == Live(h)
  {
    var h' := Swapped(h, i, j);
    assert h'.handlers[i] == h.handlers[j] && h'.handlers[j] == h.handlers[i];
    forall v | v in Live(h)
      ensures v in Live(h')
    {
      var s :| 0 <= s < h.size && h.handlers[s].node == v;
      var t := if s == i then j else if s == j then i else s;
      assert h'.handlers[t].node == v;
    }
    forall v | v in Live(h')
      ensures v in Live(h)
    {
      var s :| 0 <= s < h.size && h'.handlers[s].node == v;
      var t := if s == i then j else if s == j then i else s;
      assert h.handlers[t].node == v;
    }
  }

  lemma RearrangedTwice(h: Heap, h1: Heap, h2: Heap)
    requires Sound(h) && Sound(h1) && Sound(h2)
    requires Rearranged(h, h1) && Rearranged(h1, h2)
    ensures Rearranged(h, h2)
  {
    assert SameNodes(h, h2);
  }

  lemma {:induction false} HeapifyRearranges(h: Heap, i: nat)
    requires Sound(h) && (i < |h.handlers| || h.size <= i)
    ensures Rearranged(h, Heapified(h, i))
    decreases |h.handlers| - i
  {
    if i < h.size && Least(h, i) != i {
      var h1 := Swapped(h, i, Least(h, i));
      SwapRearranges(h, i, Least(h, i));
      HeapifyRearranges(h1, Least(h, i));
      RearrangedTwice(h, h1, Heapified(h, i));
    }
  }

  lemma {:induction false} HeapifyDownRearranges(h: Heap, k: nat)
    requires Sound(h) && k <= |h.handlers|
    ensures Rearranged(h, HeapifiedDown(h, k))
    decreases k
  {
    HeapifyRearranges(h, k);
    if k == 0 {
    } else {
      HeapifyDownRearranges(Heapified(h, k), k - 1);
      RearrangedTwice(h, Heapified(h, k), HeapifiedDown(h, k));
    }
  }

  /** Rebuild only permutes the live records and keeps the pointer structure. */
  lemma RebuildRearranges(h: Heap)
    requires Sound(h)
    ensures Rearranged(h, Rebuilt(h))
  {
    HeapifyDownRearranges(h, h.size / 2);
  }

  /** So does Build, for which all slots are live. */
  lemma BuildRearranges(h: Heap)
    requires Sound(h)
    ensures Rearranged(h.(size := |h.handlers|), Built(h))
  {
    HeapifyDownRearranges(h.(size := |h.handlers|), |h.handlers| / 2);
  }

  // ---------- The class ----------

  /** What the constructor makes of an array of nodes: slot i and node i point at each other. */
  ghost function Attached(data: seq<NodeDistance>): (h: Heap)
    ensures Sound(h) && |h.graph| == |data|
  {
    var linked := seq(|data|, i requires 0 <= i < |data| => data[i].(handler := At(i)));
    Heap(linked, linked, 0)
  }

  class BinaryHeap {
    const graph: array<NodeDistance>
    const handlers: array<NodeDistance>
    var heapSize: nat

    ghost predicate Valid()
      reads this, graph, handlers
    {
      graph != handlers && Sound(View())
    }

    ghost function View(): Heap
      reads this, graph, handlers
    {
      Heap(graph[..], handlers[..], heapSize)
    }

    constructor (data: array<NodeDistance>)
      modifies data
      ensures Valid() && graph == data && fresh(handlers) && handlers.Length == data.Length
      ensures View() == Attached(old(data[..]))
    {
      graph := data;
      handlers := new NodeDistance[data.Length](_ => NodeDistance(0, 0, Null));
      heapSize := 0;
      new;
      for i := 0 to data.Length
        invariant heapSize == 0
        invariant forall k | 0 <= k < i :: data[k] == old(data[k]).(handler := At(k)) && handlers[k] == data[k]
        invariant forall k | i <= k < data.Length :: data[k] == old(data[k])
      {
        handlers[i] := NodeDistance(data[i].node, data[i].distance, At(i));
        data[i] := data[i].(handler := At(i));
      }
      assert graph[..] == Attached(old(data[..])).graph;
      assert handlers[..] == graph[..];
    }

    method Swap(i: nat, j: nat)
      requires Valid() && i < handlers.Length && j < handlers.Length
      modifies graph, handlers
      ensures Valid() && View() == Swapped(old(View()), i, j)
    {
      var u := handlers[i].handler.index;
      graph[u] := graph[u].(handler := At(j));
      var v := handlers[j].handler.index;
      graph[v] := graph[v].(handler := At(i));
      var temp := handlers[i];
      handlers[i] := handlers[j];
      handlers[j] := temp;
      assert graph[..] == Swapped(old(View()), i, j).graph;
      assert handlers[..] == Swapped(old(View()), i, j).handlers;
    }

    method Heapify(i: nat)
      requires Valid() && (i < handlers.Length || heapSize <= i)
      modifies graph, handlers
      ensures Valid() && View() == Heapified(old(View()), i)
      decreases handlers.Length - i
    {
      var left := Left(i);
      var right := Right(i);
      var least := i;
      if left < heapSize && handlers[left].distance < handlers[i].distance {
        least := left;
      }
      if right < heapSize && handlers[right].distance < handlers[least].distance {
        least := right;
      }
      if least != i {
        Swap(i, least);
        Heapify(least);
      }
    }

    /** The loop shared by Build and Rebuild. */
    method HeapifyDown(k: nat)
      requires Valid() && k <= handlers.Length
      modifies graph, handlers
      ensures Valid() && View() == HeapifiedDown(old(View()), k)
    {
      hide Heapified;
      ghost var target := HeapifiedDown(View(), k);
      for i := k + 1 downto 0
        invariant Valid() && if i == 0 then View() == target
                    else i - 1 <= handlers.Length && HeapifiedDown(View(), i - 1) == target
      {
        Heapify(i);
      }
    }

    method Build()
      requires Valid()
      modifies this, graph, handlers
      ensures Valid() && View() == Built(old(View()))
    {
      heapSize := handlers.Length;
      assert View() == old(View()).(size := handlers.Length);
      HeapifyDown(handlers.Length / 2);
    }

    method Rebuild()
      requires Valid()
      modifies graph, handlers
      ensures Valid() && View() == Rebuilt(old(View()))
    {
      HeapifyDown(heapSize / 2);
    }

    /** As in the source when `restoring` is false; see DropRoot for the repaired variant. */
    method ExtractMin(restoring: bool) returns (node: nat)
      requires Valid()
      modifies this, graph, handlers
      ensures Valid() && handlers.Length == |old(View()).handlers|
      ensures old(heapSize) == 0 ==> node == handlers.Length && View() == old(View())
      ensures old(heapSize) > 0 ==>
        node == old(View()).handlers[0].node && View() == Extracted(old(View()), restoring)
    {
      if heapSize < 1 {
        return handlers.Length;
      }
      var min := handlers[0];
      heapSize := heapSize - 1;
      if restoring {
        var v := handlers[heapSize].handler.index;
        graph[v] := graph[v].(handler := At(0));
      }
      handlers[0] := handlers[heapSize];
      assert View() == DropRoot(old(View()), restoring);
      Heapify(0);
      return min.node;
    }

    method Decrease(index: nat, key: NFMetric)
      requires Valid() && index < handlers.Length
      modifies graph, handlers
      ensures Valid() && View() == Decreased(old(View()), index, key)
    {
      var current: nat := index;
      if key > handlers[current].distance {
        return;
      }
      handlers[current] := handlers[current].(distance := key);
      assert View() == WithKey(old(View()), index, key);
      while current > 0 && handlers[Parent(current)].distance > handlers[current].distance
        invariant Valid() && current < handlers.Length
        invariant SiftedUp(View(), current) == Decreased(old(View()), index, key)
      {
        Swap(current, Parent(current));
        current := Parent(current);
      }
    }
  }
}
