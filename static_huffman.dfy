/**
 * static_huffman.c: a Huffman code built from symbol counts, its code
 * table, and put and get of code words on the bit stream.
 *
 * BuildHuffmanTree raises zero counts to one, then repeatedly merges the
 * two live nodes of smallest count (the first in index order on ties) into
 * a new parent at the next free index, until one live node, the root, is
 * left.  ConvertTreeToCodesCore walks the tree from the root, appending 0
 * for node_0 and 1 for node_1, and records the path of every leaf.
 *
 * The build loop is specified by Scan (the minimum search) and Built (the
 * merges); the method follows them step by step.  Tree shape, code words
 * and the test vectors of the repository are lemmas on those functions.
 */
module StaticHuffman {
  import opened Bits
  import opened BitRegisters
  import opened BitStreams
  import opened CodeIO

  /** STATICHUFFMAN_MAX_NUM_SYMBOLS. */
  const MAX_NUM_SYMBOLS: nat := 256
  /** The sentinel index of the build's work area (2 * MAX_NUM_SYMBOLS). */
  const SENTINEL: nat := 512
  /** The count stored at the sentinel. */
  const UINT32_MAX: nat := 0xFFFF_FFFF

  /** The two children of an internal node. */
  datatype Node = Node(node0: nat, node1: nat)

  /** struct StaticHuffmanTree: leaves are 0 .. numSymbols-1, internal
      nodes follow them in the 2 * MAX_NUM_SYMBOLS node table. */
  datatype Tree = Tree(numSymbols: nat, rootNode: nat, nodes: seq<Node>)

  /** One row of struct StaticHuffmanCodes. */
  datatype CodeEntry = CodeEntry(code: nat, bitCount: nat)

  /** struct StaticHuffmanCodes. */
  datatype Codes = Codes(numSymbols: nat, codes: seq<CodeEntry>)

  /* ---------------------------------------------------------------- */
  /* Counts.                                                           */
  /* ---------------------------------------------------------------- */

  /** The counts with every zero raised to one. */
  function Normalized(counts: seq<nat>): (r: seq<nat>)
    ensures |r| == |counts|
    ensures forall i | 0 <= i < |r| :: r[i] > 0 && (counts[i] > 0 ==> r[i] == counts[i])
  {
    seq(|counts|, i requires 0 <= i < |counts| => if counts[i] == 0 then 1 else counts[i])
  }

  /** The number of live (nonzero) nodes. */
  function Live(w: seq<nat>): nat
  {
    if |w| == 0 then 0 else Live(w[..|w| - 1]) + (if w[|w| - 1] > 0 then 1 else 0)
  }

  /** The sum of the counts. */
  function Total(w: seq<nat>): nat
  {
    if |w| == 0 then 0 else Total(w[..|w| - 1]) + w[|w| - 1]
  }

  /** StaticHuffman_NormalizeSymbolCounts: the work area is cleared, the
      counts are copied in and zero counts become one. */
  method NormalizeSymbolCounts(counts: seq<nat>, n: nat, normalized: array<nat>, size: nat)
    requires n <= |counts| && 2 * n <= size <= normalized.Length
    modifies normalized
    ensures normalized[..n] == Normalized(counts[..n])
    ensures forall i | n <= i < size :: normalized[i] == 0
    ensures normalized[size..] == old(normalized[size..])
  {
    forall i | 0 <= i < size {
      normalized[i] := 0;
    }
    forall i | 0 <= i < n {
      normalized[i] := counts[i];
    }
    var node := 0;
    while node < n
      invariant node <= n
      invariant forall i | 0 <= i < node :: normalized[i] == Normalized(counts[..n])[i]
      invariant forall i | node <= i < n :: normalized[i] == counts[i]
      invariant forall i | n <= i < size :: normalized[i] == 0
      invariant normalized[size..] == old(normalized[size..])
    {
      if normalized[node] == 0 {
        normalized[node] := normalized[node] + 1;
      }
      node := node + 1;
    }
    assert normalized[..n] == Normalized(counts[..n]);
  }

  /* ---------------------------------------------------------------- */
  /* The build.                                                        */
  /* ---------------------------------------------------------------- */

  /** The count the minimum search compares against: counts_work[i], with
      the largest uint32 at the sentinel. */
  function Weight(w: seq<nat>, i: nat): nat
  {
    if i < |w| then w[i] else UINT32_MAX
  }

  /** (min1, min2) after the minimum search of BuildHuffmanTree has
      looked at the nodes 0 .. k-1 of w. */
  function Scan(w: seq<nat>, k: nat): (nat, nat)
    requires k <= |w|
  {
    if k == 0 then (SENTINEL, SENTINEL)
    else
      var m := Scan(w, k - 1);
      var x := k - 1;
      if w[x] == 0 then m
      else if w[x] < Weight(w, m.0) then (x, m.0)
      else if w[x] < Weight(w, m.1) then (m.0, x)
      else m
  }

  /** Node i comes before node j in the order the search prefers: a
      smaller count, or the same count and a lower index. */
  predicate Precedes(w: seq<nat>, i: nat, j: nat)
    requires i < |w| && j < |w|
  {
    w[i] < w[j] || (w[i] == w[j] && i <= j)
  }

  /** What the search returns is one of the live nodes it looked at, and
      the two are distinct. */
  lemma {:induction false} ScanRange(w: seq<nat>, k: nat)
    requires k <= |w| && k <= SENTINEL
    ensures var m := Scan(w, k);
            (m.0 == SENTINEL || (m.0 < k && w[m.0] > 0)) &&
            (m.1 == SENTINEL || (m.1 < k && w[m.1] > 0 && m.0 != SENTINEL && m.1 != m.0))
  {
    if k > 0 {
      ScanRange(w, k - 1);
    }
  }

  /** With every count below the sentinel's, min1 is the first live node of
      least count and min2 the first of least count among the others;
      a sentinel means there was no such node. */
  lemma {:induction false} ScanSpec(w: seq<nat>, k: nat)
    requires k <= |w| < SENTINEL
    requires forall j | 0 <= j < k :: w[j] < UINT32_MAX
    ensures var m := Scan(w, k);
            (m.0 == SENTINEL <==> forall j | 0 <= j < k :: w[j] == 0) &&
            (m.0 != SENTINEL ==> (m.1 == SENTINEL <==> forall j | 0 <= j < k && j != m.0 :: w[j] == 0)) &&
            (m.0 != SENTINEL ==> m.0 < k && forall j | 0 <= j < k && w[j] > 0 :: Precedes(w, m.0, j)) &&
            (m.1 != SENTINEL ==> m.0 != SENTINEL && m.1 < k && m.1 != m.0 &&
                                 forall j | 0 <= j < k && w[j] > 0 && j != m.0 :: Precedes(w, m.1, j))
  {
    ScanRange(w, k);
    if k > 0 {
      ScanSpec(w, k - 1);
      ScanRange(w, k - 1);
    }
  }

  /** The counts after merging nodes m1 and m2 into a new last node. */
  function Merged(w: seq<nat>, m1: nat, m2: nat): seq<nat>
    requires m1 < |w| && m2 < |w|
  {
    w[m1 := 0][m2 := 0] + [w[m1] + w[m2]]
  }

  /** The counts and the internal nodes when BuildHuffmanTree's loop
      stops, from the counts w and the internal nodes kids so far. */
  function Built(w: seq<nat>, kids: seq<Node>, n: nat): (r: (seq<nat>, seq<Node>))
    requires Live(w) + |w| == 2 * n && n <= MAX_NUM_SYMBOLS
    ensures |r.0| >= |w| && |r.0| - |w| == |r.1| - |kids| && Live(r.0) + |r.0| == 2 * n
    ensures |w| == n + |kids| && Descending(kids, n) ==> Descending(r.1, n)
    decreases Live(w)
  {
    var m := Scan(w, |w|);
    if m.1 == SENTINEL then (w, kids)
    else
      ScanRange(w, |w|);
      MergedCounts(w, m.0, m.1);
      Built(Merged(w, m.0, m.1), kids + [Node(m.0, m.1)], n)
  }

  /** Internal node n + k has its children below it. */
  ghost predicate Descending(kids: seq<Node>, n: nat)
  {
    forall k | 0 <= k < |kids| :: kids[k].node0 < n + k && kids[k].node1 < n + k
  }

  /** The node table: kids at n, n+1, ..., and the rest as the model
      allocates it. */
  function Layout(n: nat, kids: seq<Node>): (nodes: seq<Node>)
    ensures |nodes| == 2 * MAX_NUM_SYMBOLS
  {
    seq(2 * MAX_NUM_SYMBOLS, i requires 0 <= i < 2 * MAX_NUM_SYMBOLS =>
          if n <= i < n + |kids| then kids[i - n] else Node(0, 0))
  }

  /** The tree StaticHuffman_BuildHuffmanTree builds for counts[..n]. */
  function BuildTree(counts: seq<nat>, n: nat): (t: Tree)
    requires 0 < n <= MAX_NUM_SYMBOLS && n <= |counts|
    ensures t.numSymbols == n && t.rootNode < |t.nodes| && Ordered(t)
  {
    var w := Normalized(counts[..n]);
    LiveAll(w);
    var r := Built(w, [], n);
    LayoutOrdered(n, r.1, |r.0| - 1);
    Tree(n, |r.0| - 1, Layout(n, r.1))
  }

  /** A node table laid out from descending internal nodes is ordered. */
  lemma LayoutOrdered(n: nat, kids: seq<Node>, root: nat)
    requires Descending(kids, n) && 0 < n && n + |kids| <= 2 * MAX_NUM_SYMBOLS
    ensures Ordered(Tree(n, root, Layout(n, kids)))
  {
    forall p | 0 <= p < 2 * MAX_NUM_SYMBOLS
      ensures var nodes := Layout(n, kids);
              nodes[p].node0 < |nodes| && nodes[p].node1 < |nodes| &&
              (n <= p ==> nodes[p].node0 < p && nodes[p].node1 < p)
    {
      if n <= p < n + |kids| {
        assert Layout(n, kids)[p] == kids[p - n];
      }
    }
  }

  /** The minimum search of BuildHuffmanTree over nodes 0 .. freeNode-1. */
  method FindMins(work: array<nat>, freeNode: nat) returns (min1: nat, min2: nat)
    requires work.Length == SENTINEL + 1 && freeNode < SENTINEL && work[SENTINEL] == UINT32_MAX
    ensures (min1, min2) == Scan(work[..freeNode], freeNode)
  {
    ghost var w := work[..freeNode];
    min1, min2 := SENTINEL, SENTINEL;
    var node := 0;
    while node < freeNode
      invariant node <= freeNode
      invariant (min1, min2) == Scan(w, node)
    {
      ScanRange(w, node);
      assert work[node] == w[node];
      assert work[min1] == Weight(w, min1) && work[min2] == Weight(w, min2);
      if work[node] > 0 {
        if work[node] < work[min1] {
          min2 := min1;
          min1 := node;
        } else if work[node] < work[min2] {
          min2 := node;
        }
      }
      node := node + 1;
    }
  }

  /** One merge of the build loop, written to the work area and the node
      table: the new node freeNode gets the summed count and the children
      min1 and min2, whose counts become zero. */
  method MergeNodes(work: array<nat>, nodes: array<Node>, freeNode: nat, min1: nat, min2: nat, ghost w: seq<nat>)
    requires work.Length == SENTINEL + 1 && nodes.Length == SENTINEL && freeNode < SENTINEL
    requires min1 < freeNode && min2 < freeNode && w == work[..freeNode]
    modifies work, nodes
    ensures work[..freeNode + 1] == Merged(w, min1, min2)
    ensures work[SENTINEL] == old(work[SENTINEL])
    ensures nodes[..] == old(nodes[..])[freeNode := Node(min1, min2)]
  {
    work[freeNode] := work[min1] + work[min2];
    work[min1] := 0;
    work[min2] := 0;
    nodes[freeNode] := Node(min1, min2);
    assert work[..freeNode + 1] == Merged(w, min1, min2);
  }

  /** Built takes one merge when the search finds two nodes. */
  lemma BuiltStep(w: seq<nat>, kids: seq<Node>, n: nat)
    requires Live(w) + |w| == 2 * n && n <= MAX_NUM_SYMBOLS
    ensures var m := Scan(w, |w|);
            m.1 != SENTINEL ==>
              m.0 < |w| && m.1 < |w| &&
              Live(Merged(w, m.0, m.1)) + |w| + 1 == 2 * n && Live(Merged(w, m.0, m.1)) >= 1 &&
              Built(w, kids, n) == Built(Merged(w, m.0, m.1), kids + [Node(m.0, m.1)], n)
    ensures Scan(w, |w|).1 == SENTINEL ==> Built(w, kids, n) == (w, kids)
  {
    var m := Scan(w, |w|);
    if m.1 != SENTINEL {
      ScanRange(w, |w|);
      MergedCounts(w, m.0, m.1);
    }
  }

  /** The merge loop of BuildHuffmanTree, from the normalized counts w0
      at nodes 0 .. n-1: it stops in the state Built describes, with
      internal node n + k holding kids[k]. */
  method MergeLoop(work: array<nat>, nodes: array<Node>, n: nat, ghost w0: seq<nat>)
    returns (freeNode: nat, ghost kids: seq<Node>)
    requires work.Length == SENTINEL + 1 && nodes.Length == SENTINEL && 0 < n <= MAX_NUM_SYMBOLS
    requires w0 == work[..n] && Live(w0) == n && work[SENTINEL] == UINT32_MAX
    requires forall i | 0 <= i < SENTINEL :: nodes[i] == Node(0, 0)
    modifies work, nodes
    ensures n <= freeNode < SENTINEL && freeNode == n + |kids| && Built(w0, [], n) == (work[..freeNode], kids)
    ensures forall i | 0 <= i < SENTINEL :: nodes[i] == if n <= i < freeNode then kids[i - n] else Node(0, 0)
  {
    hide Built, Merged, Live, Scan, Weight;
    kids := [];
    freeNode := n;
    while true
      invariant n <= freeNode < SENTINEL && freeNode == n + |kids|
      invariant Live(work[..freeNode]) + freeNode == 2 * n
      invariant work[SENTINEL] == UINT32_MAX
      invariant Built(work[..freeNode], kids, n) == Built(w0, [], n)
      invariant forall i | 0 <= i < SENTINEL :: nodes[i] == if n <= i < freeNode then kids[i - n] else Node(0, 0)
      decreases Live(work[..freeNode])
    {
      ghost var w := work[..freeNode];
      var min1, min2 := FindMins(work, freeNode);
      BuiltStep(w, kids, n);
      if min2 == SENTINEL {
        break;
      }
      MergeNodes(work, nodes, freeNode, min1, min2, w);
      kids := kids + [Node(min1, min2)];
      freeNode := freeNode + 1;
    }
  }

  /** StaticHuffman_BuildHuffmanTree. */
  method BuildHuffmanTree(counts: seq<nat>, n: nat) returns (tree: Tree)
    requires 0 < n <= MAX_NUM_SYMBOLS && n <= |counts|
    ensures tree == BuildTree(counts, n)
  {
    hide Built, Merged, Live, Scan, Weight, Ordered;
    var work := new nat[SENTINEL + 1];
    NormalizeSymbolCounts(counts, n, work, SENTINEL);
    work[SENTINEL] := UINT32_MAX;
    var nodes := new Node[SENTINEL](_ => Node(0, 0));
    ghost var w0 := Normalized(counts[..n]);
    LiveAll(w0);
    assert work[..n] == w0;
    var freeNode, kids := MergeLoop(work, nodes, n, w0);
    assert nodes[..] == Layout(n, kids);
    tree := Tree(n, freeNode - 1, nodes[..]);
  }

  /* ---------------------------------------------------------------- */
  /* Counting lemmas.                                                  */
  /* ---------------------------------------------------------------- */

  /** Only positive counts: every node is live. */
  lemma {:induction false} LiveAll(w: seq<nat>)
    requires forall i | 0 <= i < |w| :: w[i] > 0
    ensures Live(w) == |w|
  {
    if |w| > 0 {
      LiveAll(w[..|w| - 1]);
    }
  }

  /** No positive count: no node is live. */
  lemma {:induction false} LiveNone(w: seq<nat>)
    requires forall i | 0 <= i < |w| :: w[i] == 0
    ensures Live(w) == 0
  {
    if |w| > 0 {
      LiveNone(w[..|w| - 1]);
    }
  }

  /** Changing one count changes the live nodes by that node only. */
  lemma {:induction false} LiveUpdate(w: seq<nat>, i: nat, v: nat)
    requires i < |w|
    ensures Live(w[i := v]) == Live(w) - (if w[i] > 0 then 1 else 0) + (if v > 0 then 1 else 0)
  {
    var u := w[i := v];
    if i == |w| - 1 {
      assert u[..|u| - 1] == w[..|w| - 1];
    } else {
      assert u[..|u| - 1] == w[..|w| - 1][i := v];
      LiveUpdate(w[..|w| - 1], i, v);
    }
  }

  /** Changing one count changes the total by the difference. */
  lemma {:induction false} TotalUpdate(w: seq<nat>, i: nat, v: nat)
    requires i < |w|
    ensures Total(w[i := v]) == Total(w) - w[i] + v
  {
    var u := w[i := v];
    if i == |w| - 1 {
      assert u[..|u| - 1] == w[..|w| - 1];
    } else {
      assert u[..|u| - 1] == w[..|w| - 1][i := v];
      TotalUpdate(w[..|w| - 1], i, v);
    }
  }

  /** No count exceeds the total. */
  lemma {:induction false} TotalBound(w: seq<nat>, i: nat)
    requires i < |w|
    ensures w[i] <= Total(w)
  {
    if i < |w| - 1 {
      TotalBound(w[..|w| - 1], i);
    }
  }

  /** A merge turns two live nodes into one and keeps the total. */
  lemma MergedCounts(w: seq<nat>, m1: nat, m2: nat)
    requires m1 < |w| && m2 < |w| && m1 != m2 && w[m1] > 0 && w[m2] > 0
    ensures Live(Merged(w, m1, m2)) == Live(w) - 1 >= 1
    ensures Total(Merged(w, m1, m2)) == Total(w)
  {
    hide Live, Total;
    var u := w[m1 := 0][m2 := 0];
    LiveUpdate(w, m1, 0);
    LiveUpdate(w[m1 := 0], m2, 0);
    TotalUpdate(w, m1, 0);
    TotalUpdate(w[m1 := 0], m2, 0);
    Appended(u, w[m1] + w[m2]);
    assert Merged(w, m1, m2) == u + [w[m1] + w[m2]];
  }

  /** A new last node adds its count, and one live node if positive. */
  lemma Appended(u: seq<nat>, c: nat)
    ensures Live(u + [c]) == Live(u) + (if c > 0 then 1 else 0)
    ensures Total(u + [c]) == Total(u) + c
  {
    assert (u + [c])[..|u|] == u;
  }

  /* ---------------------------------------------------------------- */
  /* Shape of the built tree.                                          */
  /* ---------------------------------------------------------------- */

  /** Node j is a child of one of the internal nodes kids. */
  ghost predicate Parented(kids: seq<Node>, j: nat)
  {
    exists k | 0 <= k < |kids| :: kids[k].node0 == j || kids[k].node1 == j
  }

  /** The state of the build loop: leaves 0 .. n-1, internal node n+k has
      children below it, every node is live or has a parent, the newest
      node is live, and the counts stay below the sentinel's. */
  ghost predicate Forest(w: seq<nat>, kids: seq<Node>, n: nat)
  {
    0 < n <= MAX_NUM_SYMBOLS && |w| == n + |kids| && Live(w) + |w| == 2 * n &&
    (forall k | 0 <= k < |kids| :: kids[k].node0 < n + k && kids[k].node1 < n + k && kids[k].node0 != kids[k].node1) &&
    (forall j | 0 <= j < |w| :: w[j] > 0 || Parented(kids, j)) &&
    (|kids| > 0 ==> w[|w| - 1] > 0) &&
    Total(w) < UINT32_MAX
  }

  /** One merge keeps the loop state. */
  lemma MergeKeepsForest(w: seq<nat>, kids: seq<Node>, n: nat, m1: nat, m2: nat)
    requires Forest(w, kids, n) && m1 < |w| && m2 < |w| && m1 != m2 && w[m1] > 0 && w[m2] > 0
    ensures Forest(Merged(w, m1, m2), kids + [Node(m1, m2)], n)
  {
    var w' := Merged(w, m1, m2);
    var kids' := kids + [Node(m1, m2)];
    MergedCounts(w, m1, m2);
    forall j | 0 <= j < |w'|
      ensures w'[j] > 0 || Parented(kids', j)
    {
      if j == m1 || j == m2 {
        assert kids'[|kids|].node0 == j || kids'[|kids|].node1 == j;
      } else if j < |w| && w'[j] == 0 {
        assert w[j] == 0;
        var k :| 0 <= k < |kids| && (kids[k].node0 == j || kids[k].node1 == j);
        assert kids'[k] == kids[k];
      }
    }
    forall k | 0 <= k < |kids'|
      ensures kids'[k].node0 < n + k && kids'[k].node1 < n + k && kids'[k].node0 != kids'[k].node1
    {
      if k < |kids| {
        assert kids'[k] == kids[k];
      }
    }
  }

  /** Every count lies below the sentinel's. */
  lemma BelowSentinel(w: seq<nat>)
    requires Total(w) < UINT32_MAX
    ensures forall j | 0 <= j < |w| :: w[j] < UINT32_MAX
  {
    forall j | 0 <= j < |w|
      ensures w[j] < UINT32_MAX
    {
      TotalBound(w, j);
    }
  }

  /** When the search finds no second node there is one live node: the
      newest, and every other node has a parent. */
  lemma Stopped(w: seq<nat>, kids: seq<Node>, n: nat)
    requires Forest(w, kids, n) && Scan(w, |w|).1 == SENTINEL
    ensures |w| == 2 * n - 1 && forall j | 0 <= j < |w| - 1 :: Parented(kids, j)
  {
    var m := Scan(w, |w|);
    BelowSentinel(w);
    ScanSpec(w, |w|);
    if |kids| > 0 {
      assert m.0 == |w| - 1;
    } else {
      assert w[0] > 0;
    }
    var u := w[m.0 := 0];
    assert forall j | 0 <= j < |u| :: u[j] == 0;
    LiveNone(u);
    LiveUpdate(w, m.0, 0);
    forall j | 0 <= j < |w| - 1
      ensures Parented(kids, j)
    {
      assert w[j] == 0;
    }
  }

  /** When the loop stops, one node is live: the newest, which is the
      root, at index 2n-2, and every other node has a parent. */
  lemma {:induction false} BuiltForest(w: seq<nat>, kids: seq<Node>, n: nat)
    requires Forest(w, kids, n)
    ensures var r := Built(w, kids, n);
            Forest(r.0, r.1, n) && |r.0| == 2 * n - 1 &&
            forall j | 0 <= j < |r.0| - 1 :: Parented(r.1, j)
    decreases Live(w)
  {
    var m := Scan(w, |w|);
    if m.1 == SENTINEL {
      Stopped(w, kids, n);
    } else {
      ScanRange(w, |w|);
      MergeKeepsForest(w, kids, n, m.0, m.1);
      MergedCounts(w, m.0, m.1);
      BuiltForest(Merged(w, m.0, m.1), kids + [Node(m.0, m.1)], n);
    }
  }

  /** Every entry of the node table points into the table, and internal
      nodes have their children below them.  The entries the build does
      not write are (0, 0) in the model, which satisfies both. */
  ghost predicate Ordered(t: Tree)
  {
    forall p | 0 <= p < |t.nodes| ::
      t.nodes[p].node0 < |t.nodes| && t.nodes[p].node1 < |t.nodes| &&
      (t.numSymbols <= p ==> t.nodes[p].node0 < p && t.nodes[p].node1 < p)
  }

  /** Node j is a child of an internal node up to the root. */
  ghost predicate HasParent(t: Tree, j: nat)
  {
    exists p | t.numSymbols <= p <= t.rootNode && p < |t.nodes| :: t.nodes[p].node0 == j || t.nodes[p].node1 == j
  }

  /** A full binary tree with leaves 0 .. n-1 and root 2n-2. */
  ghost predicate ValidTree(t: Tree)
  {
    0 < t.numSymbols <= MAX_NUM_SYMBOLS && |t.nodes| == 2 * MAX_NUM_SYMBOLS &&
    t.rootNode == 2 * t.numSymbols - 2 && Ordered(t) &&
    (forall p | t.numSymbols <= p <= t.rootNode :: t.nodes[p].node0 != t.nodes[p].node1) &&
    (forall j | 0 <= j < t.rootNode :: HasParent(t, j))
  }

  /** Counts that sum below 2^32 - 1 (no parent count wraps) build a full
      binary tree over n leaves, rooted at 2n-2. */
  lemma BuildTreeValid(counts: seq<nat>, n: nat)
    requires 0 < n <= MAX_NUM_SYMBOLS && n <= |counts|
    requires Total(Normalized(counts[..n])) < UINT32_MAX
    ensures var t := BuildTree(counts, n);
            ValidTree(t) && t.numSymbols == n && t.rootNode == 2 * n - 2
  {
    var w := Normalized(counts[..n]);
    LiveAll(w);
    BuiltForest(w, [], n);
    var r := Built(w, [], n);
    LayoutValid(n, r.1);
  }

  /** The node table laid out from the loop's final internal nodes is a
      full binary tree. */
  lemma LayoutValid(n: nat, kids: seq<Node>)
    requires 0 < n <= MAX_NUM_SYMBOLS && n + |kids| == 2 * n - 1
    requires forall k | 0 <= k < |kids| :: kids[k].node0 < n + k && kids[k].node1 < n + k && kids[k].node0 != kids[k].node1
    requires forall j | 0 <= j < n + |kids| - 1 :: Parented(kids, j)
    ensures var t := Tree(n, 2 * n - 2, Layout(n, kids));
            ValidTree(t)
  {
    var t := Tree(n, 2 * n - 2, Layout(n, kids));
    LayoutOrdered(n, kids, 2 * n - 2);
    forall j | 0 <= j < t.rootNode
      ensures HasParent(t, j)
    {
      assert Parented(kids, j);
      var k :| 0 <= k < |kids| && (kids[k].node0 == j || kids[k].node1 == j);
      assert t.nodes[n + k] == kids[k];
    }
    forall p | n <= p <= t.rootNode
      ensures t.nodes[p].node0 != t.nodes[p].node1
    {
      assert t.nodes[p] == kids[p - n];
    }
  }

  /** The build merges first the first two leaves of least count. */
  lemma FirstMergeIsLeast(counts: seq<nat>, n: nat)
    requires 2 <= n <= MAX_NUM_SYMBOLS && n <= |counts|
    requires Total(Normalized(counts[..n])) < UINT32_MAX
    ensures var w := Normalized(counts[..n]);
            var t := BuildTree(counts, n);
            var a := t.nodes[n].node0;
            var b := t.nodes[n].node1;
            a < n && b < n && a != b &&
            (forall j | 0 <= j < n :: Precedes(w, a, j)) &&
            (forall j | 0 <= j < n && j != a :: Precedes(w, b, j))
  {
    hide Built, Scan, Merged, Normalized;
    var w := Normalized(counts[..n]);
    LiveAll(w);
    BelowSentinel(w);
    ScanSpec(w, n);
    ScanRange(w, n);
    var m := Scan(w, n);
    assert w[0] > 0 && w[1] > 0;
    assert m.1 != SENTINEL by {
      if m.0 == 0 {
        assert w[1] > 0;
      } else {
        assert w[0] > 0;
      }
    }
    MergedCounts(w, m.0, m.1);
    BuiltStep(w, [], n);
    var w1 := Merged(w, m.0, m.1);
    assert Built(w, [], n) == Built(w1, [Node(m.0, m.1)], n) by {
      assert [] + [Node(m.0, m.1)] == [Node(m.0, m.1)];
    }
    KidsPrefix(w1, [Node(m.0, m.1)], n);
    var r := Built(w, [], n);
    assert r.1[..1] == [Node(m.0, m.1)];
    var t := BuildTree(counts, n);
    assert t.nodes == Layout(n, r.1);
    assert t.nodes[n] == r.1[0] == Node(m.0, m.1);
  }

  /** The loop only appends internal nodes. */
  lemma {:induction false} KidsPrefix(w: seq<nat>, kids: seq<Node>, n: nat)
    requires Live(w) + |w| == 2 * n && n <= MAX_NUM_SYMBOLS
    ensures Built(w, kids, n).1[..|kids|] == kids
    decreases Live(w)
  {
    var m := Scan(w, |w|);
    if m.1 != SENTINEL {
      ScanRange(w, |w|);
      MergedCounts(w, m.0, m.1);
      KidsPrefix(Merged(w, m.0, m.1), kids + [Node(m.0, m.1)], n);
    }
  }

  /* ---------------------------------------------------------------- */
  /* Code words.                                                       */
  /* ---------------------------------------------------------------- */

  /** Node x is an internal node of t. */
  predicate Internal(t: Tree, x: nat)
  {
    t.numSymbols <= x < |t.nodes|
  }

  /** The node the decoder moves to from x on reading bit: node_1 for a
      one, node_0 for a zero. */
  function Step(t: Tree, x: nat, bit: bool): nat
    requires x < |t.nodes|
  {
    if bit then t.nodes[x].node1 else t.nodes[x].node0
  }

  /** Following bits from node x through internal nodes ends at node y. */
  ghost predicate Route(t: Tree, x: nat, bits: seq<bool>, y: nat)
    decreases |bits|
  {
    if |bits| == 0 then x == y
    else Internal(t, x) && Route(t, Step(t, x, bits[0]), bits[1..], y)
  }

  /** bits is the code word of symbol v: the path from the root to leaf v. */
  ghost predicate CodeWord(t: Tree, bits: seq<bool>, v: nat)
  {
    v < t.numSymbols && Route(t, t.rootNode, bits, v)
  }

  /** A path extended by one more step from an internal node. */
  lemma {:induction false} RouteExtend(t: Tree, x: nat, bits: seq<bool>, y: nat, bit: bool)
    requires Route(t, x, bits, y) && Internal(t, y)
    ensures Route(t, x, bits + [bit], Step(t, y, bit))
    decreases |bits|
  {
    if |bits| > 0 {
      assert (bits + [bit])[1..] == bits[1..] + [bit];
      RouteExtend(t, Step(t, x, bits[0]), bits[1..], y, bit);
    }
  }

  /** No code word is a prefix of another: a path that ends at a leaf ends
      every longer path from the same node that starts with it. */
  lemma {:induction false} RoutePrefix(t: Tree, x: nat, a: seq<bool>, v: nat, b: seq<bool>, w: nat)
    requires Route(t, x, a, v) && Route(t, x, b, w) && v < t.numSymbols && w < t.numSymbols
    requires |a| <= |b| && a == b[..|a|]
    ensures a == b && v == w
    decreases |a|
  {
    if |a| > 0 {
      assert a[1..] == b[1..][..|a| - 1];
      RoutePrefix(t, Step(t, x, a[0]), a[1..], v, b[1..], w);
    }
  }

  /** The code words of a tree are prefix-free, and distinct symbols
      have distinct code words. */
  lemma PrefixFree(t: Tree, a: seq<bool>, v: nat, b: seq<bool>, w: nat)
    requires CodeWord(t, a, v) && CodeWord(t, b, w) && |a| <= |b| && a == b[..|a|]
    ensures a == b && v == w
  {
    RoutePrefix(t, t.rootNode, a, v, b, w);
  }

  /** Leaf v lies in the subtree of node x. */
  ghost predicate Under(t: Tree, x: nat, v: nat)
    decreases x
  {
    x == v ||
    (Internal(t, x) &&
     ((t.nodes[x].node0 < x && Under(t, t.nodes[x].node0, v)) ||
      (t.nodes[x].node1 < x && Under(t, t.nodes[x].node1, v))))
  }

  /** A subtree of a subtree is a subtree. */
  lemma {:induction false} UnderTrans(t: Tree, x: nat, y: nat, v: nat)
    requires Under(t, x, y) && Under(t, y, v)
    ensures Under(t, x, v)
    decreases x
  {
    if x != y {
      if t.nodes[x].node0 < x && Under(t, t.nodes[x].node0, y) {
        UnderTrans(t, t.nodes[x].node0, y, v);
      } else {
        UnderTrans(t, t.nodes[x].node1, y, v);
      }
    }
  }

  /** In a full binary tree every node up to the root lies under the root. */
  lemma {:induction false} UnderRoot(t: Tree, j: nat)
    requires ValidTree(t) && j <= t.rootNode
    ensures Under(t, t.rootNode, j)
    decreases t.rootNode - j
  {
    if j < t.rootNode {
      assert HasParent(t, j);
      var p :| t.numSymbols <= p <= t.rootNode && p < |t.nodes| && (t.nodes[p].node0 == j || t.nodes[p].node1 == j);
      UnderRoot(t, p);
      assert Under(t, j, j);
      assert Under(t, p, j);
      UnderTrans(t, t.rootNode, p, j);
    }
  }

  /* ---------------------------------------------------------------- */
  /* The code table.                                                   */
  /* ---------------------------------------------------------------- */

  /** The bits a code table entry stands for: its bitCount low bits of
      code, most significant first. */
  function EntryBits(e: CodeEntry): seq<bool>
  {
    NatToBits(e.code, e.bitCount)
  }

  /** The table tab after StaticHuffman_ConvertTreeToCodesCore has visited
      node with the code code of bitCount bits. */
  function Assign(t: Tree, node: nat, code: nat, bitCount: nat, tab: seq<CodeEntry>): (r: seq<CodeEntry>)
    requires Ordered(t) && t.numSymbols <= |tab| && node < |t.nodes|
    ensures |r| == |tab|
    decreases node
  {
    if node < t.numSymbols then tab[node := CodeEntry(code, bitCount)]
    else
      var left := Assign(t, t.nodes[node].node0, 2 * code, bitCount + 1, tab);
      Assign(t, t.nodes[node].node1, 2 * code + 1, bitCount + 1, left)
  }

  /** The code table StaticHuffman_ConvertTreeToCodes makes for t, in a
      table the model starts from zeros. */
  function CodeTable(t: Tree): (c: Codes)
    requires Ordered(t) && t.numSymbols <= MAX_NUM_SYMBOLS && t.rootNode < |t.nodes|
    ensures |c.codes| == MAX_NUM_SYMBOLS
  {
    Codes(t.numSymbols, Assign(t, t.rootNode, 0, 0, seq(MAX_NUM_SYMBOLS, _ => CodeEntry(0, 0))))
  }

  /** Appending a bit to a code word doubles the code and adds the bit. */
  lemma AppendBit(code: nat, bitCount: nat, bit: bool)
    ensures NatToBits(2 * code + (if bit then 1 else 0), bitCount + 1) == NatToBits(code, bitCount) + [bit]
  {
  }

  /** Visiting node x, reached by the code word of code, gives every leaf
      under x the code word of its path, and leaves every other entry as
      it was or holding the code word of its own leaf. */
  lemma {:induction false} AssignCodes(t: Tree, x: nat, code: nat, bitCount: nat, tab: seq<CodeEntry>)
    requires Ordered(t) && t.numSymbols <= |tab| && x < |t.nodes|
    requires Route(t, t.rootNode, NatToBits(code, bitCount), x)
    ensures var r := Assign(t, x, code, bitCount, tab);
            forall v | 0 <= v < t.numSymbols && Under(t, x, v) :: CodeWord(t, EntryBits(r[v]), v)
    ensures var r := Assign(t, x, code, bitCount, tab);
            forall v | 0 <= v < |tab| :: r[v] == tab[v] || (v < t.numSymbols && CodeWord(t, EntryBits(r[v]), v))
    decreases x
  {
    if x >= t.numSymbols {
      var x0 := t.nodes[x].node0;
      var x1 := t.nodes[x].node1;
      AppendBit(code, bitCount, false);
      AppendBit(code, bitCount, true);
      RouteExtend(t, t.rootNode, NatToBits(code, bitCount), x, false);
      RouteExtend(t, t.rootNode, NatToBits(code, bitCount), x, true);
      var left := Assign(t, x0, 2 * code, bitCount + 1, tab);
      AssignCodes(t, x0, 2 * code, bitCount + 1, tab);
      AssignCodes(t, x1, 2 * code + 1, bitCount + 1, left);
    }
  }

  /** Every symbol of a full binary tree gets its code word. */
  lemma CodeTableCodeWords(t: Tree)
    requires ValidTree(t)
    ensures forall v | 0 <= v < t.numSymbols :: CodeWord(t, EntryBits(CodeTable(t).codes[v]), v)
  {
    assert NatToBits(0, 0) == [];
    AssignCodes(t, t.rootNode, 0, 0, seq(MAX_NUM_SYMBOLS, _ => CodeEntry(0, 0)));
    forall v | 0 <= v < t.numSymbols
      ensures Under(t, t.rootNode, v)
    {
      UnderRoot(t, v);
    }
  }

  /** Every code of tab is below 2^bitCount: its code word holds all of it. */
  predicate CodesFit(tab: seq<CodeEntry>)
  {
    forall v | 0 <= v < |tab| :: tab[v].code < Pow2(tab[v].bitCount)
  }

  /** Assign keeps every code below 2^bitCount, so a code word of at most
      32 bits fits the source's `uint32_t` code without loss. */
  lemma {:induction false} AssignFits(t: Tree, x: nat, code: nat, bitCount: nat, tab: seq<CodeEntry>)
    requires Ordered(t) && t.numSymbols <= |tab| && x < |t.nodes| && code < Pow2(bitCount) && CodesFit(tab)
    ensures CodesFit(Assign(t, x, code, bitCount, tab))
    decreases x
  {
    if x < t.numSymbols {
      var r := tab[x := CodeEntry(code, bitCount)];
      assert forall v | 0 <= v < |r| :: r[v] == tab[v] || v == x;
    } else {
      var left := Assign(t, t.nodes[x].node0, 2 * code, bitCount + 1, tab);
      AssignFits(t, t.nodes[x].node0, 2 * code, bitCount + 1, tab);
      AssignFits(t, t.nodes[x].node1, 2 * code + 1, bitCount + 1, left);
    }
  }

  /** Every entry of the code table is below 2^bitCount: while every code
      word is at most 32 bits, the table is the one the source's shifts of
      a `uint32_t` build. */
  lemma CodeTableFits(t: Tree)
    requires Ordered(t) && t.numSymbols <= MAX_NUM_SYMBOLS && t.rootNode < |t.nodes|
    ensures CodesFit(CodeTable(t).codes)
  {
    var zeros := seq(MAX_NUM_SYMBOLS, _ => CodeEntry(0, 0));
    assert Pow2(0) == 1;
    AssignFits(t, t.rootNode, 0, 0, zeros);
  }

  /** StaticHuffman_ConvertTreeToCodesCore. */
  method ConvertTreeToCodesCore(t: Tree, codes: array<CodeEntry>, node: nat, code: nat, bitCount: nat)
    requires Ordered(t) && t.numSymbols <= codes.Length && node < |t.nodes|
    modifies codes
    ensures codes[..] == Assign(t, node, code, bitCount, old(codes[..]))
    decreases node
  {
    if node < t.numSymbols {
      codes[node] := CodeEntry(code, bitCount);
      return;
    }
    var c := 2 * code;
    var len := bitCount + 1;
    ConvertTreeToCodesCore(t, codes, t.nodes[node].node0, c, len);
    ConvertTreeToCodesCore(t, codes, t.nodes[node].node1, c + 1, len);
  }

  /** StaticHuffman_ConvertTreeToCodes. */
  method ConvertTreeToCodes(t: Tree) returns (codes: Codes)
    requires Ordered(t) && t.numSymbols <= MAX_NUM_SYMBOLS && t.rootNode < |t.nodes|
    ensures codes == CodeTable(t)
  {
    var table := new CodeEntry[MAX_NUM_SYMBOLS](_ => CodeEntry(0, 0));
    assert table[..] == seq(MAX_NUM_SYMBOLS, _ => CodeEntry(0, 0));
    ConvertTreeToCodesCore(t, table, t.rootNode, 0, 0);
    codes := Codes(t.numSymbols, table[..]);
  }

  /* ---------------------------------------------------------------- */
  /* Put and get.                                                      */
  /* ---------------------------------------------------------------- */

  /** StaticHuffman_PutCode: the code word of val is appended. */
  method PutCode(codes: Codes, stream: BitStream, val: nat)
    requires val < codes.numSymbols && val < |codes.codes| && codes.codes[val].bitCount <= 32
    requires stream.Valid() && !stream.readMode && stream.Room(codes.codes[val].bitCount)
    modifies stream, stream.memory
    ensures stream.Valid() && !stream.readMode && stream.memory == old(stream.memory)
    ensures stream.Written() == old(stream.Written()) + EntryBits(codes.codes[val])
  {
    stream.PutBits(codes.codes[val].code, codes.codes[val].bitCount);
  }

  /** Walking down from node x by bits until a leaf: the leaf and the
      number of bits read, or None when the bits run out first. */
  function Descend(t: Tree, x: nat, bits: seq<bool>): Option<(nat, nat)>
    requires Ordered(t) && x < |t.nodes|
    decreases x
  {
    if x < t.numSymbols then Some((x, 0))
    else if |bits| == 0 then None
    else
      match Descend(t, Step(t, x, bits[0]), bits[1..])
      case Some(r) => Some((r.0, r.1 + 1))
      case None => None
  }

  /** What StaticHuffman_GetCode returns and reads: it reads one bit and
      steps from the root before it looks at the node it has reached. */
  function Received(t: Tree, bits: seq<bool>): Option<(nat, nat)>
    requires Ordered(t) && t.rootNode < |t.nodes|
  {
    if |bits| == 0 then None
    else
      match Descend(t, Step(t, t.rootNode, bits[0]), bits[1..])
      case Some(r) => Some((r.0, r.1 + 1))
      case None => None
  }

  /** Walking down from x by a path to leaf v, whatever follows it. */
  lemma {:induction false} DescendRoute(t: Tree, x: nat, w: seq<bool>, v: nat, rest: seq<bool>)
    requires Ordered(t) && x < |t.nodes| && Route(t, x, w, v) && v < t.numSymbols
    ensures Descend(t, x, w + rest) == Some((v, |w|))
    decreases |w|
  {
    if |w| > 0 {
      assert (w + rest)[0] == w[0] && (w + rest)[1..] == w[1..] + rest;
      DescendRoute(t, Step(t, x, w[0]), w[1..], v, rest);
    }
  }

  /** One step of a walk that reaches a leaf from an internal node. */
  lemma DescendStep(t: Tree, x: nat, s: seq<bool>, v: nat, k: int)
    requires Ordered(t) && x < |t.nodes| && x >= t.numSymbols && Descend(t, x, s) == Some((v, k))
    ensures |s| >= 1 && k >= 1 && Descend(t, Step(t, x, s[0]), s[1..]) == Some((v, k - 1))
  {
  }

  /** A walk that starts at a leaf ends there without reading. */
  lemma DescendLeaf(t: Tree, x: nat, s: seq<bool>)
    requires Ordered(t) && x < |t.nodes| && x < t.numSymbols
    ensures Descend(t, x, s) == Some((x, 0))
  {
  }

  /** The one-bit read of the decoder. */
  lemma OneBit(b: bool)
    ensures BitsToNat([b]) == if b then 1 else 0
  {
    assert [b][..0] == [];
  }

  /** The walk of the decoders from node x down to a leaf: while the node
      is internal, read a bit and step to that child.  In front of bits
      that take it from x to leaf v, it returns v and reads exactly those
      bits. */
  method WalkDown(t: Tree, stream: BitStream, x: nat, ghost bits: seq<bool>, ghost v: nat, ghost rest: seq<bool>)
    returns (symbol: nat)
    requires Ordered(t) && x < |t.nodes|
    requires Descend(t, x, bits) == Some((v, |bits|)) && Holds(stream, bits + rest)
    modifies stream
    ensures symbol == v && Holds(stream, rest)
    ensures stream.memory == old(stream.memory) && stream.Position() == old(stream.Position()) + |bits|
  {
    hide Descend, BitsToNat;
    var node: nat := x;
    ghost var i: nat := 0;
    while node >= t.numSymbols
      invariant i <= |bits| && node < |t.nodes| && Descend(t, node, bits[i..]) == Some((v, |bits| - i))
      invariant Holds(stream, bits[i..] + rest)
      invariant stream.memory == old(stream.memory) && stream.Position() == old(stream.Position()) + i
      decreases node
    {
      DescendStep(t, node, bits[i..], v, |bits| - i);
      assert bits[i..] + rest == [bits[i]] + (bits[i + 1..] + rest);
      assert bits[i..][1..] == bits[i + 1..];
      var bit := ReadBits(stream, 1, [bits[i]], bits[i + 1..] + rest);
      OneBit(bits[i]);
      node := if bit == 0 then t.nodes[node].node0 else t.nodes[node].node1;
      i := i + 1;
    }
    DescendLeaf(t, node, bits[i..]);
    assert bits[i..] + rest == rest;
    symbol := node;
  }

  /** StaticHuffman_GetCode, whose do/while reads a bit and steps from the
      root before it tests for a leaf: in front of bits that take it to
      leaf v, it returns v and reads exactly those bits. */
  method GetCode(t: Tree, stream: BitStream, ghost bits: seq<bool>, ghost v: nat, ghost rest: seq<bool>)
    returns (symbol: nat)
    requires Ordered(t) && t.rootNode < |t.nodes|
    requires Received(t, bits) == Some((v, |bits|)) && Holds(stream, bits + rest)
    modifies stream
    ensures symbol == v && Holds(stream, rest)
    ensures stream.memory == old(stream.memory) && stream.Position() == old(stream.Position()) + |bits|
  {
    hide Descend, BitsToNat;
    assert bits + rest == [bits[0]] + (bits[1..] + rest);
    var bit := ReadBits(stream, 1, [bits[0]], bits[1..] + rest);
    OneBit(bits[0]);
    var node: nat := if bit == 0 then t.nodes[t.rootNode].node0 else t.nodes[t.rootNode].node1;
    symbol := WalkDown(t, stream, node, bits[1..], v, rest);
  }

  /** With at least two symbols the root is internal, every code word has
      a bit, and GetCode reads exactly the code word of v, whatever
      follows it. */
  lemma ReceivedCodeWord(t: Tree, w: seq<bool>, v: nat, rest: seq<bool>)
    requires ValidTree(t) && t.numSymbols >= 2 && CodeWord(t, w, v)
    ensures |w| >= 1 && Received(t, w + rest) == Some((v, |w|))
  {
    assert |w| >= 1;
    assert (w + rest)[0] == w[0] && (w + rest)[1..] == w[1..] + rest;
    DescendRoute(t, Step(t, t.rootNode, w[0]), w[1..], v, rest);
  }

  /** With one symbol its code word is empty and PutCode writes nothing,
      but GetCode reads one bit and returns the symbol whatever the bit. */
  lemma SingleSymbolGetCode(count: nat, b: bool, rest: seq<bool>)
    ensures var t := BuildTree([count], 1);
            t.rootNode == 0 && EntryBits(CodeTable(t).codes[0]) == [] &&
            Received(t, [b] + rest) == Some((0, 1))
  {
    var w := Normalized([count][..1]);
    assert w == [w[0]];
    LiveAll(w);
    BuiltStep(w, [], 1);
    var t := BuildTree([count], 1);
    assert t.nodes[0] == Node(0, 0);
  }

  /** StaticHuffman_GetCode with the leaf test before each read: in front
      of the code word of v, for any number of symbols, it returns v and
      reads exactly the code word. */
  method GetCodeChecked(t: Tree, stream: BitStream, ghost bits: seq<bool>, ghost v: nat, ghost rest: seq<bool>)
    returns (symbol: nat)
    requires Ordered(t) && t.rootNode < |t.nodes|
    requires Descend(t, t.rootNode, bits) == Some((v, |bits|)) && Holds(stream, bits + rest)
    modifies stream
    ensures symbol == v && Holds(stream, rest)
    ensures stream.memory == old(stream.memory) && stream.Position() == old(stream.Position()) + |bits|
  {
    symbol := WalkDown(t, stream, t.rootNode, bits, v, rest);
  }

  /** The checked decoder reads exactly the code word of v, for every
      number of symbols, one included. */
  lemma DescendCodeWord(t: Tree, w: seq<bool>, v: nat, rest: seq<bool>)
    requires Ordered(t) && t.rootNode < |t.nodes| && CodeWord(t, w, v)
    ensures Descend(t, t.rootNode, w + rest) == Some((v, |w|))
  {
    DescendRoute(t, t.rootNode, w, v, rest);
  }

  /** A PutCode of symbol v into a stream that GetCode later reads from
      the same place returns v and consumes exactly the bits written, for
      counts of at least two symbols whose sum stays below 2^32 - 1. */
  lemma CodeRoundTrip(counts: seq<nat>, n: nat, v: nat, rest: seq<bool>)
    requires 2 <= n <= MAX_NUM_SYMBOLS && n <= |counts| && v < n
    requires Total(Normalized(counts[..n])) < UINT32_MAX
    ensures var t := BuildTree(counts, n);
            var w := EntryBits(CodeTable(t).codes[v]);
            |w| >= 1 && Received(t, w + rest) == Some((v, |w|)) &&
            Descend(t, t.rootNode, w + rest) == Some((v, |w|))
  {
    var t := BuildTree(counts, n);
    BuildTreeValid(counts, n);
    CodeTableCodeWords(t);
    var w := EntryBits(CodeTable(t).codes[v]);
    ReceivedCodeWord(t, w, v, rest);
    DescendCodeWord(t, w, v, rest);
  }

  /** The checked decoder also restores the one-symbol code. */
  lemma CheckedRoundTrip(counts: seq<nat>, n: nat, v: nat, rest: seq<bool>)
    requires 0 < n <= MAX_NUM_SYMBOLS && n <= |counts| && v < n
    requires Total(Normalized(counts[..n])) < UINT32_MAX
    ensures var t := BuildTree(counts, n);
            Descend(t, t.rootNode, EntryBits(CodeTable(t).codes[v]) + rest)
              == Some((v, |EntryBits(CodeTable(t).codes[v])|))
  {
    var t := BuildTree(counts, n);
    BuildTreeValid(counts, n);
    CodeTableCodeWords(t);
    DescendCodeWord(t, EntryBits(CodeTable(t).codes[v]), v, rest);
  }

  /* ---------------------------------------------------------------- */
  /* The examples of the repository's tests.                           */
  /* ---------------------------------------------------------------- */

  /** counts[0] * bitCount[0] + ... over the first k symbols: the length
      of a message with those symbol counts. */
  function WeightedLength(counts: seq<nat>, codes: seq<CodeEntry>, k: nat): nat
    requires k <= |counts| && k <= |codes|
  {
    if k == 0 then 0 else WeightedLength(counts, codes, k - 1) + counts[k - 1] * codes[k - 1].bitCount
  }

  /** One merge of a build whose search result and merged counts are
      known. */
  lemma MergeStep(w: seq<nat>, kids: seq<Node>, n: nat, a: nat, b: nat, w2: seq<nat>, kids2: seq<Node>)
    requires Live(w) + |w| == 2 * n && n <= MAX_NUM_SYMBOLS
    requires Scan(w, |w|) == (a, b) && b != SENTINEL && a < |w| && b < |w|
    requires Merged(w, a, b) == w2 && kids2 == kids + [Node(a, b)]
    ensures Live(w2) + |w2| == 2 * n && Built(w, kids, n) == Built(w2, kids2, n)
  {
    BuiltStep(w, kids, n);
  }

  /** Merge 1 of the build for the counts [4, 3, 2, 1]. */
  lemma ExampleMerges1a()
    ensures Live([4, 3, 2, 1]) + 4 == 8
    ensures Live([4, 3, 0, 0, 3]) + 5 == 8
    ensures Built([4, 3, 2, 1], [], 4) == Built([4, 3, 0, 0, 3], [Node(3, 2)], 4)
  {
    LiveAll([4, 3, 2, 1]);
    var w0 := [4, 3, 2, 1];
    assert Scan(w0, 1) == (0, SENTINEL);
    assert Scan(w0, 2) == (1, 0);
    assert Scan(w0, 3) == (2, 1);
    assert Scan(w0, 4) == (3, 2);
    assert Merged(w0, 3, 2) == [4, 3, 0, 0, 3];
    MergeStep(w0, [], 4, 3, 2, [4, 3, 0, 0, 3], [Node(3, 2)]);
  }

  /** Merge 2 of the build for the counts [4, 3, 2, 1]. */
  lemma ExampleMerges1b()
    requires Live([4, 3, 0, 0, 3]) + 5 == 8
    ensures Live([4, 0, 0, 0, 0, 6]) + 6 == 8
    ensures Built([4, 3, 0, 0, 3], [Node(3, 2)], 4) == Built([4, 0, 0, 0, 0, 6], [Node(3, 2), Node(1, 4)], 4)
  {
    var w1 := [4, 3, 0, 0, 3];
    assert Scan(w1, 1) == (0, SENTINEL);
    assert Scan(w1, 2) == (1, 0);
    assert Scan(w1, 3) == (1, 0);
    assert Scan(w1, 4) == (1, 0);
    assert Scan(w1, 5) == (1, 4);
    assert Merged(w1, 1, 4) == [4, 0, 0, 0, 0, 6];
    MergeStep(w1, [Node(3, 2)], 4, 1, 4, [4, 0, 0, 0, 0, 6], [Node(3, 2), Node(1, 4)]);
  }

  /** Merge 3 of the build for the counts [4, 3, 2, 1]. */
  lemma ExampleMerges1c()
    requires Live([4, 0, 0, 0, 0, 6]) + 6 == 8
    ensures Live([0, 0, 0, 0, 0, 0, 10]) + 7 == 8
    ensures Built([4, 0, 0, 0, 0, 6], [Node(3, 2), Node(1, 4)], 4) == Built([0, 0, 0, 0, 0, 0, 10], [Node(3, 2), Node(1, 4), Node(0, 5)], 4)
  {
    var w2 := [4, 0, 0, 0, 0, 6];
    assert Scan(w2, 1) == (0, SENTINEL);
    assert Scan(w2, 2) == (0, SENTINEL);
    assert Scan(w2, 3) == (0, SENTINEL);
    assert Scan(w2, 4) == (0, SENTINEL);
    assert Scan(w2, 5) == (0, SENTINEL);
    assert Scan(w2, 6) == (0, 5);
    assert Merged(w2, 0, 5) == [0, 0, 0, 0, 0, 0, 10];
    MergeStep(w2, [Node(3, 2), Node(1, 4)], 4, 0, 5, [0, 0, 0, 0, 0, 0, 10], [Node(3, 2), Node(1, 4), Node(0, 5)]);
  }

  /** The build for the counts [4, 3, 2, 1] stops after 3 merges. */
  lemma ExampleMerges1d()
    requires Live([0, 0, 0, 0, 0, 0, 10]) + 7 == 8
    ensures Built([0, 0, 0, 0, 0, 0, 10], [Node(3, 2), Node(1, 4), Node(0, 5)], 4) == ([0, 0, 0, 0, 0, 0, 10], [Node(3, 2), Node(1, 4), Node(0, 5)])
  {
    var w3 := [0, 0, 0, 0, 0, 0, 10];
    assert Scan(w3, 1) == (SENTINEL, SENTINEL);
    assert Scan(w3, 2) == (SENTINEL, SENTINEL);
    assert Scan(w3, 3) == (SENTINEL, SENTINEL);
    assert Scan(w3, 4) == (SENTINEL, SENTINEL);
    assert Scan(w3, 5) == (SENTINEL, SENTINEL);
    assert Scan(w3, 6) == (SENTINEL, SENTINEL);
    assert Scan(w3, 7) == (6, SENTINEL);
    BuiltStep(w3, [Node(3, 2), Node(1, 4), Node(0, 5)], 4);
  }

  /** The tree built for the counts [4, 3, 2, 1]. */
  lemma ExampleTree1()
    ensures BuildTree([4, 3, 2, 1], 4) == Tree(4, 6, Layout(4, [Node(3, 2), Node(1, 4), Node(0, 5)]))
  {
    assert [4, 3, 2, 1][..4] == [4, 3, 2, 1];
    assert Normalized([4, 3, 2, 1]) == [4, 3, 2, 1];
    ExampleMerges1a();
    ExampleMerges1b();
    ExampleMerges1c();
    ExampleMerges1d();
  }

  /** The code table of that tree. */
  lemma ExampleCodes1()
    requires Ordered(Tree(4, 6, Layout(4, [Node(3, 2), Node(1, 4), Node(0, 5)])))
    ensures var c := CodeTable(Tree(4, 6, Layout(4, [Node(3, 2), Node(1, 4), Node(0, 5)]))).codes;
            c[0] == CodeEntry(0, 1) && c[1] == CodeEntry(2, 2) && c[2] == CodeEntry(7, 3) && c[3] == CodeEntry(6, 3)
  {
    var t := Tree(4, 6, Layout(4, [Node(3, 2), Node(1, 4), Node(0, 5)]));
    assert t.nodes[4] == Node(3, 2);
    assert t.nodes[5] == Node(1, 4);
    assert t.nodes[6] == Node(0, 5);
    var T0 := seq(MAX_NUM_SYMBOLS, _ => CodeEntry(0, 0));
    var T1 := T0[0 := CodeEntry(0, 1)];
    assert Assign(t, 0, 0, 1, T0) == T1;
    var T2 := T1[1 := CodeEntry(2, 2)];
    assert Assign(t, 1, 2, 2, T1) == T2;
    var T3 := T2[3 := CodeEntry(6, 3)];
    assert Assign(t, 3, 6, 3, T2) == T3;
    var T4 := T3[2 := CodeEntry(7, 3)];
    assert Assign(t, 2, 7, 3, T3) == T4;
    assert Assign(t, 4, 3, 2, T2) == T4;
    assert Assign(t, 5, 1, 1, T1) == T4;
    assert Assign(t, 6, 0, 0, T0) == T4;
  }

  /** The four-symbol table of the repository's tests: 0, 10, 111, 110. */
  lemma ExampleTable1()
    ensures var c := CodeTable(BuildTree([4, 3, 2, 1], 4)).codes;
            c[0] == CodeEntry(0, 1) && c[1] == CodeEntry(2, 2) && c[2] == CodeEntry(7, 3) && c[3] == CodeEntry(6, 3)
  {
    ExampleTree1();
    ExampleCodes1();
  }

  /** Merge 1 of the build for the counts [5, 3, 2, 1, 1]. */
  lemma ExampleMerges2a()
    ensures Live([5, 3, 2, 1, 1]) + 5 == 10
    ensures Live([5, 3, 2, 0, 0, 2]) + 6 == 10
    ensures Built([5, 3, 2, 1, 1], [], 5) == Built([5, 3, 2, 0, 0, 2], [Node(3, 4)], 5)
  {
    LiveAll([5, 3, 2, 1, 1]);
    var w0 := [5, 3, 2, 1, 1];
    assert Scan(w0, 1) == (0, SENTINEL);
    assert Scan(w0, 2) == (1, 0);
    assert Scan(w0, 3) == (2, 1);
    assert Scan(w0, 4) == (3, 2);
    assert Scan(w0, 5) == (3, 4);
    assert Merged(w0, 3, 4) == [5, 3, 2, 0, 0, 2];
    MergeStep(w0, [], 5, 3, 4, [5, 3, 2, 0, 0, 2], [Node(3, 4)]);
  }

  /** Merge 2 of the build for the counts [5, 3, 2, 1, 1]. */
  lemma ExampleMerges2b()
    requires Live([5, 3, 2, 0, 0, 2]) + 6 == 10
    ensures Live([5, 3, 0, 0, 0, 0, 4]) + 7 == 10
    ensures Built([5, 3, 2, 0, 0, 2], [Node(3, 4)], 5) == Built([5, 3, 0, 0, 0, 0, 4], [Node(3, 4), Node(2, 5)], 5)
  {
    var w1 := [5, 3, 2, 0, 0, 2];
    assert Scan(w1, 1) == (0, SENTINEL);
    assert Scan(w1, 2) == (1, 0);
    assert Scan(w1, 3) == (2, 1);
    assert Scan(w1, 4) == (2, 1);
    assert Scan(w1, 5) == (2, 1);
    assert Scan(w1, 6) == (2, 5);
    assert Merged(w1, 2, 5) == [5, 3, 0, 0, 0, 0, 4];
    MergeStep(w1, [Node(3, 4)], 5, 2, 5, [5, 3, 0, 0, 0, 0, 4], [Node(3, 4), Node(2, 5)]);
  }

  /** Merge 3 of the build for the counts [5, 3, 2, 1, 1]. */
  lemma ExampleMerges2c()
    requires Live([5, 3, 0, 0, 0, 0, 4]) + 7 == 10
    ensures Live([5, 0, 0, 0, 0, 0, 0, 7]) + 8 == 10
    ensures Built([5, 3, 0, 0, 0, 0, 4], [Node(3, 4), Node(2, 5)], 5) == Built([5, 0, 0, 0, 0, 0, 0, 7], [Node(3, 4), Node(2, 5), Node(1, 6)], 5)
  {
    var w2 := [5, 3, 0, 0, 0, 0, 4];
    assert Scan(w2, 1) == (0, SENTINEL);
    assert Scan(w2, 2) == (1, 0);
    assert Scan(w2, 3) == (1, 0);
    assert Scan(w2, 4) == (1, 0);
    assert Scan(w2, 5) == (1, 0);
    assert Scan(w2, 6) == (1, 0);
    assert Scan(w2, 7) == (1, 6);
    assert Merged(w2, 1, 6) == [5, 0, 0, 0, 0, 0, 0, 7];
    MergeStep(w2, [Node(3, 4), Node(2, 5)], 5, 1, 6, [5, 0, 0, 0, 0, 0, 0, 7], [Node(3, 4), Node(2, 5), Node(1, 6)]);
  }

  /** Merge 4 of the build for the counts [5, 3, 2, 1, 1]. */
  lemma ExampleMerges2d()
    requires Live([5, 0, 0, 0, 0, 0, 0, 7]) + 8 == 10
    ensures Live([0, 0, 0, 0, 0, 0, 0, 0, 12]) + 9 == 10
    ensures Built([5, 0, 0, 0, 0, 0, 0, 7], [Node(3, 4), Node(2, 5), Node(1, 6)], 5) == Built([0, 0, 0, 0, 0, 0, 0, 0, 12], [Node(3, 4), Node(2, 5), Node(1, 6), Node(0, 7)], 5)
  {
    var w3 := [5, 0, 0, 0, 0, 0, 0, 7];
    assert Scan(w3, 1) == (0, SENTINEL);
    assert Scan(w3, 2) == (0, SENTINEL);
    assert Scan(w3, 3) == (0, SENTINEL);
    assert Scan(w3, 4) == (0, SENTINEL);
    assert Scan(w3, 5) == (0, SENTINEL);
    assert Scan(w3, 6) == (0, SENTINEL);
    assert Scan(w3, 7) == (0, SENTINEL);
    assert Scan(w3, 8) == (0, 7);
    assert Merged(w3, 0, 7) == [0, 0, 0, 0, 0, 0, 0, 0, 12];
    MergeStep(w3, [Node(3, 4), Node(2, 5), Node(1, 6)], 5, 0, 7, [0, 0, 0, 0, 0, 0, 0, 0, 12], [Node(3, 4), Node(2, 5), Node(1, 6), Node(0, 7)]);
  }

  /** The build for the counts [5, 3, 2, 1, 1] stops after 4 merges. */
  lemma ExampleMerges2e()
    requires Live([0, 0, 0, 0, 0, 0, 0, 0, 12]) + 9 == 10
    ensures Built([0, 0, 0, 0, 0, 0, 0, 0, 12], [Node(3, 4), Node(2, 5), Node(1, 6), Node(0, 7)], 5) == ([0, 0, 0, 0, 0, 0, 0, 0, 12], [Node(3, 4), Node(2, 5), Node(1, 6), Node(0, 7)])
  {
    var w4 := [0, 0, 0, 0, 0, 0, 0, 0, 12];
    assert Scan(w4, 1) == (SENTINEL, SENTINEL);
    assert Scan(w4, 2) == (SENTINEL, SENTINEL);
    assert Scan(w4, 3) == (SENTINEL, SENTINEL);
    assert Scan(w4, 4) == (SENTINEL, SENTINEL);
    assert Scan(w4, 5) == (SENTINEL, SENTINEL);
    assert Scan(w4, 6) == (SENTINEL, SENTINEL);
    assert Scan(w4, 7) == (SENTINEL, SENTINEL);
    assert Scan(w4, 8) == (SENTINEL, SENTINEL);
    assert Scan(w4, 9) == (8, SENTINEL);
    BuiltStep(w4, [Node(3, 4), Node(2, 5), Node(1, 6), Node(0, 7)], 5);
  }

  /** The tree built for the counts [5, 3, 2, 1, 1]. */
  lemma ExampleTree2()
    ensures BuildTree([5, 3, 2, 1, 1], 5) == Tree(5, 8, Layout(5, [Node(3, 4), Node(2, 5), Node(1, 6), Node(0, 7)]))
  {
    assert [5, 3, 2, 1, 1][..5] == [5, 3, 2, 1, 1];
    assert Normalized([5, 3, 2, 1, 1]) == [5, 3, 2, 1, 1];
    ExampleMerges2a();
    ExampleMerges2b();
    ExampleMerges2c();
    ExampleMerges2d();
    ExampleMerges2e();
  }

  /** The code table of that tree. */
  lemma ExampleCodes2()
    requires Ordered(Tree(5, 8, Layout(5, [Node(3, 4), Node(2, 5), Node(1, 6), Node(0, 7)])))
    ensures var c := CodeTable(Tree(5, 8, Layout(5, [Node(3, 4), Node(2, 5), Node(1, 6), Node(0, 7)]))).codes;
            c[0] == CodeEntry(0, 1) && c[1] == CodeEntry(2, 2) && c[2] == CodeEntry(6, 3) && c[3] == CodeEntry(14, 4) && c[4] == CodeEntry(15, 4)
  {
    var t := Tree(5, 8, Layout(5, [Node(3, 4), Node(2, 5), Node(1, 6), Node(0, 7)]));
    assert t.nodes[5] == Node(3, 4);
    assert t.nodes[6] == Node(2, 5);
    assert t.nodes[7] == Node(1, 6);
    assert t.nodes[8] == Node(0, 7);
    var T0 := seq(MAX_NUM_SYMBOLS, _ => CodeEntry(0, 0));
    var T1 := T0[0 := CodeEntry(0, 1)];
    assert Assign(t, 0, 0, 1, T0) == T1;
    var T2 := T1[1 := CodeEntry(2, 2)];
    assert Assign(t, 1, 2, 2, T1) == T2;
    var T3 := T2[2 := CodeEntry(6, 3)];
    assert Assign(t, 2, 6, 3, T2) == T3;
    var T4 := T3[3 := CodeEntry(14, 4)];
    assert Assign(t, 3, 14, 4, T3) == T4;
    var T5 := T4[4 := CodeEntry(15, 4)];
    assert Assign(t, 4, 15, 4, T4) == T5;
    assert Assign(t, 5, 7, 3, T3) == T5;
    assert Assign(t, 6, 3, 2, T2) == T5;
    assert Assign(t, 7, 1, 1, T1) == T5;
    assert Assign(t, 8, 0, 0, T0) == T5;
  }

  /** The five-symbol table of the repository's tests: 0, 10, 110, 1110, 1111. */
  lemma ExampleTable2()
    ensures var c := CodeTable(BuildTree([5, 3, 2, 1, 1], 5)).codes;
            c[0] == CodeEntry(0, 1) && c[1] == CodeEntry(2, 2) && c[2] == CodeEntry(6, 3) && c[3] == CodeEntry(14, 4) && c[4] == CodeEntry(15, 4)
  {
    ExampleTree2();
    ExampleCodes2();
  }

  /** Merge 1 of the build for the counts [8, 4, 4, 4, 2, 2]. */
  lemma ExampleMerges3a()
    ensures Live([8, 4, 4, 4, 2, 2]) + 6 == 12
    ensures Live([8, 4, 4, 4, 0, 0, 4]) + 7 == 12
    ensures Built([8, 4, 4, 4, 2, 2], [], 6) == Built([8, 4, 4, 4, 0, 0, 4], [Node(4, 5)], 6)
  {
    LiveAll([8, 4, 4, 4, 2, 2]);
    var w0 := [8, 4, 4, 4, 2, 2];
    assert Scan(w0, 1) == (0, SENTINEL);
    assert Scan(w0, 2) == (1, 0);
    assert Scan(w0, 3) == (1, 2);
    assert Scan(w0, 4) == (1, 2);
    assert Scan(w0, 5) == (4, 1);
    assert Scan(w0, 6) == (4, 5);
    assert Merged(w0, 4, 5) == [8, 4, 4, 4, 0, 0, 4];
    MergeStep(w0, [], 6, 4, 5, [8, 4, 4, 4, 0, 0, 4], [Node(4, 5)]);
  }

  /** Merge 2 of the build for the counts [8, 4, 4, 4, 2, 2]. */
  lemma ExampleMerges3b()
    requires Live([8, 4, 4, 4, 0, 0, 4]) + 7 == 12
    ensures Live([8, 0, 0, 4, 0, 0, 4, 8]) + 8 == 12
    ensures Built([8, 4, 4, 4, 0, 0, 4], [Node(4, 5)], 6) == Built([8, 0, 0, 4, 0, 0, 4, 8], [Node(4, 5), Node(1, 2)], 6)
  {
    var w1 := [8, 4, 4, 4, 0, 0, 4];
    assert Scan(w1, 1) == (0, SENTINEL);
    assert Scan(w1, 2) == (1, 0);
    assert Scan(w1, 3) == (1, 2);
    assert Scan(w1, 4) == (1, 2);
    assert Scan(w1, 5) == (1, 2);
    assert Scan(w1, 6) == (1, 2);
    assert Scan(w1, 7) == (1, 2);
    assert Merged(w1, 1, 2) == [8, 0, 0, 4, 0, 0, 4, 8];
    MergeStep(w1, [Node(4, 5)], 6, 1, 2, [8, 0, 0, 4, 0, 0, 4, 8], [Node(4, 5), Node(1, 2)]);
  }

  /** Merge 3 of the build for the counts [8, 4, 4, 4, 2, 2]. */
  lemma ExampleMerges3c()
    requires Live([8, 0, 0, 4, 0, 0, 4, 8]) + 8 == 12
    ensures Live([8, 0, 0, 0, 0, 0, 0, 8, 8]) + 9 == 12
    ensures Built([8, 0, 0, 4, 0, 0, 4, 8], [Node(4, 5), Node(1, 2)], 6) == Built([8, 0, 0, 0, 0, 0, 0, 8, 8], [Node(4, 5), Node(1, 2), Node(3, 6)], 6)
  {
    var w2 := [8, 0, 0, 4, 0, 0, 4, 8];
    assert Scan(w2, 1) == (0, SENTINEL);
    assert Scan(w2, 2) == (0, SENTINEL);
    assert Scan(w2, 3) == (0, SENTINEL);
    assert Scan(w2, 4) == (3, 0);
    assert Scan(w2, 5) == (3, 0);
    assert Scan(w2, 6) == (3, 0);
    assert Scan(w2, 7) == (3, 6);
    assert Scan(w2, 8) == (3, 6);
    assert Merged(w2, 3, 6) == [8, 0, 0, 0, 0, 0, 0, 8, 8];
    MergeStep(w2, [Node(4, 5), Node(1, 2)], 6, 3, 6, [8, 0, 0, 0, 0, 0, 0, 8, 8], [Node(4, 5), Node(1, 2), Node(3, 6)]);
  }

  /** Merge 4 of the build for the counts [8, 4, 4, 4, 2, 2]. */
  lemma ExampleMerges3d()
    requires Live([8, 0, 0, 0, 0, 0, 0, 8, 8]) + 9 == 12
    ensures Live([0, 0, 0, 0, 0, 0, 0, 0, 8, 16]) + 10 == 12
    ensures Built([8, 0, 0, 0, 0, 0, 0, 8, 8], [Node(4, 5), Node(1, 2), Node(3, 6)], 6) == Built([0, 0, 0, 0, 0, 0, 0, 0, 8, 16], [Node(4, 5), Node(1, 2), Node(3, 6), Node(0, 7)], 6)
  {
    var w3 := [8, 0, 0, 0, 0, 0, 0, 8, 8];
    assert Scan(w3, 1) == (0, SENTINEL);
    assert Scan(w3, 2) == (0, SENTINEL);
    assert Scan(w3, 3) == (0, SENTINEL);
    assert Scan(w3, 4) == (0, SENTINEL);
    assert Scan(w3, 5) == (0, SENTINEL);
    assert Scan(w3, 6) == (0, SENTINEL);
    assert Scan(w3, 7) == (0, SENTINEL);
    assert Scan(w3, 8) == (0, 7);
    assert Scan(w3, 9) == (0, 7);
    assert Merged(w3, 0, 7) == [0, 0, 0, 0, 0, 0, 0, 0, 8, 16];
    MergeStep(w3, [Node(4, 5), Node(1, 2), Node(3, 6)], 6, 0, 7, [0, 0, 0, 0, 0, 0, 0, 0, 8, 16], [Node(4, 5), Node(1, 2), Node(3, 6), Node(0, 7)]);
  }

  /** The two nodes the search picks for the merge of the next lemma. */
  lemma ExampleMerges3eScan()
    ensures Scan([0, 0, 0, 0, 0, 0, 0, 0, 8, 16], 10) == (8, 9)
  {
    var w4 := [0, 0, 0, 0, 0, 0, 0, 0, 8, 16];
    assert Scan(w4, 1) == (SENTINEL, SENTINEL);
    ScanSkipsEmpty(w4, 1, 8);
    assert Scan(w4, 9) == (8, SENTINEL);
  }

  /** Merge 5 of the build for the counts [8, 4, 4, 4, 2, 2]. */
  lemma ExampleMerges3e()
    requires Live([0, 0, 0, 0, 0, 0, 0, 0, 8, 16]) + 10 == 12
    ensures Live([0, 0, 0, 0, 0, 0, 0, 0, 0, 0, 24]) + 11 == 12
    ensures Built([0, 0, 0, 0, 0, 0, 0, 0, 8, 16], [Node(4, 5), Node(1, 2), Node(3, 6), Node(0, 7)], 6) == Built([0, 0, 0, 0, 0, 0, 0, 0, 0, 0, 24], [Node(4, 5), Node(1, 2), Node(3, 6), Node(0, 7), Node(8, 9)], 6)
  {
    var w4 := [0, 0, 0, 0, 0, 0, 0, 0, 8, 16];
    ExampleMerges3eScan();
    assert Merged(w4, 8, 9) == [0, 0, 0, 0, 0, 0, 0, 0, 0, 0, 24];
    MergeStep(w4, [Node(4, 5), Node(1, 2), Node(3, 6), Node(0, 7)], 6, 8, 9, [0, 0, 0, 0, 0, 0, 0, 0, 0, 0, 24], [Node(4, 5), Node(1, 2), Node(3, 6), Node(0, 7), Node(8, 9)]);
  }

  /** The two nodes the search picks for the merge of the next lemma. */
  lemma ExampleMerges3fScan()
    ensures Scan([0, 0, 0, 0, 0, 0, 0, 0, 0, 0, 24], 11) == (10, SENTINEL)
  {
    var w5 := [0, 0, 0, 0, 0, 0, 0, 0, 0, 0, 24];
    assert Scan(w5, 1) == (SENTINEL, SENTINEL);
    ScanSkipsEmpty(w5, 1, 10);
  }

  /** The build for the counts [8, 4, 4, 4, 2, 2] stops after 5 merges. */
  lemma ExampleMerges3f()
    requires Live([0, 0, 0, 0, 0, 0, 0, 0, 0, 0, 24]) + 11 == 12
    ensures Built([0, 0, 0, 0, 0, 0, 0, 0, 0, 0, 24], [Node(4, 5), Node(1, 2), Node(3, 6), Node(0, 7), Node(8, 9)], 6) == ([0, 0, 0, 0, 0, 0, 0, 0, 0, 0, 24], [Node(4, 5), Node(1, 2), Node(3, 6), Node(0, 7), Node(8, 9)])
  {
    var w5 := [0, 0, 0, 0, 0, 0, 0, 0, 0, 0, 24];
    ExampleMerges3fScan();
    BuiltStep(w5, [Node(4, 5), Node(1, 2), Node(3, 6), Node(0, 7), Node(8, 9)], 6);
  }

  /** The tree built for the counts [8, 4, 4, 4, 2, 2]. */
  lemma ExampleTree3()
    ensures BuildTree([8, 4, 4, 4, 2, 2], 6) == Tree(6, 10, Layout(6, [Node(4, 5), Node(1, 2), Node(3, 6), Node(0, 7), Node(8, 9)]))
  {
    assert [8, 4, 4, 4, 2, 2][..6] == [8, 4, 4, 4, 2, 2];
    assert Normalized([8, 4, 4, 4, 2, 2]) == [8, 4, 4, 4, 2, 2];
    ExampleMerges3a();
    ExampleMerges3b();
    ExampleMerges3c();
    ExampleMerges3d();
    ExampleMerges3e();
    ExampleMerges3f();
  }

  /** The code table of that tree. */
  lemma ExampleCodes3()
    requires Ordered(Tree(6, 10, Layout(6, [Node(4, 5), Node(1, 2), Node(3, 6), Node(0, 7), Node(8, 9)])))
    ensures var c := CodeTable(Tree(6, 10, Layout(6, [Node(4, 5), Node(1, 2), Node(3, 6), Node(0, 7), Node(8, 9)]))).codes;
            c[0] == CodeEntry(2, 2) && c[1] == CodeEntry(6, 3) && c[2] == CodeEntry(7, 3) && c[3] == CodeEntry(0, 2) && c[4] == CodeEntry(2, 3) && c[5] == CodeEntry(3, 3)
  {
    var t := Tree(6, 10, Layout(6, [Node(4, 5), Node(1, 2), Node(3, 6), Node(0, 7), Node(8, 9)]));
    assert t.nodes[6] == Node(4, 5);
    assert t.nodes[7] == Node(1, 2);
    assert t.nodes[8] == Node(3, 6);
    assert t.nodes[9] == Node(0, 7);
    assert t.nodes[10] == Node(8, 9);
    var T0 := seq(MAX_NUM_SYMBOLS, _ => CodeEntry(0, 0));
    var T1 := T0[3 := CodeEntry(0, 2)];
    assert Assign(t, 3, 0, 2, T0) == T1;
    var T2 := T1[4 := CodeEntry(2, 3)];
    assert Assign(t, 4, 2, 3, T1) == T2;
    var T3 := T2[5 := CodeEntry(3, 3)];
    assert Assign(t, 5, 3, 3, T2) == T3;
    assert Assign(t, 6, 1, 2, T1) == T3;
    assert Assign(t, 8, 0, 1, T0) == T3;
    var T4 := T3[0 := CodeEntry(2, 2)];
    assert Assign(t, 0, 2, 2, T3) == T4;
    var T5 := T4[1 := CodeEntry(6, 3)];
    assert Assign(t, 1, 6, 3, T4) == T5;
    var T6 := T5[2 := CodeEntry(7, 3)];
    assert Assign(t, 2, 7, 3, T5) == T6;
    assert Assign(t, 7, 3, 2, T4) == T6;
    assert Assign(t, 9, 1, 1, T3) == T6;
    assert Assign(t, 10, 0, 0, T0) == T6;
  }

  /** The counts 8, 4, 4, 4, 2, 2 take 60 bits in all. */
  lemma ExampleLength3()
    ensures WeightedLength([8, 4, 4, 4, 2, 2], CodeTable(BuildTree([8, 4, 4, 4, 2, 2], 6)).codes, 6) == 60
  {
    ExampleTree3();
    ExampleCodes3();
    var c := CodeTable(BuildTree([8, 4, 4, 4, 2, 2], 6)).codes;
    assert WeightedLength([8, 4, 4, 4, 2, 2], c, 1) == 16;
    assert WeightedLength([8, 4, 4, 4, 2, 2], c, 2) == 28;
    assert WeightedLength([8, 4, 4, 4, 2, 2], c, 3) == 40;
    assert WeightedLength([8, 4, 4, 4, 2, 2], c, 4) == 48;
    assert WeightedLength([8, 4, 4, 4, 2, 2], c, 5) == 54;
    assert WeightedLength([8, 4, 4, 4, 2, 2], c, 6) == 60;
  }

  /** Merge 1 of the build for the counts [50, 20, 10, 8, 5, 4, 2, 1]. */
  lemma ExampleMerges4a()
    ensures Live([50, 20, 10, 8, 5, 4, 2, 1]) + 8 == 16
    ensures Live([50, 20, 10, 8, 5, 4, 0, 0, 3]) + 9 == 16
    ensures Built([50, 20, 10, 8, 5, 4, 2, 1], [], 8) == Built([50, 20, 10, 8, 5, 4, 0, 0, 3], [Node(7, 6)], 8)
  {
    LiveAll([50, 20, 10, 8, 5, 4, 2, 1]);
    var w0 := [50, 20, 10, 8, 5, 4, 2, 1];
    assert Scan(w0, 1) == (0, SENTINEL);
    assert Scan(w0, 2) == (1, 0);
    assert Scan(w0, 3) == (2, 1);
    assert Scan(w0, 4) == (3, 2);
    assert Scan(w0, 5) == (4, 3);
    assert Scan(w0, 6) == (5, 4);
    assert Scan(w0, 7) == (6, 5);
    assert Scan(w0, 8) == (7, 6);
    assert Merged(w0, 7, 6) == [50, 20, 10, 8, 5, 4, 0, 0, 3];
    MergeStep(w0, [], 8, 7, 6, [50, 20, 10, 8, 5, 4, 0, 0, 3], [Node(7, 6)]);
  }

  /** Merge 2 of the build for the counts [50, 20, 10, 8, 5, 4, 2, 1]. */
  lemma ExampleMerges4b()
    requires Live([50, 20, 10, 8, 5, 4, 0, 0, 3]) + 9 == 16
    ensures Live([50, 20, 10, 8, 5, 0, 0, 0, 0, 7]) + 10 == 16
    ensures Built([50, 20, 10, 8, 5, 4, 0, 0, 3], [Node(7, 6)], 8) == Built([50, 20, 10, 8, 5, 0, 0, 0, 0, 7], [Node(7, 6), Node(8, 5)], 8)
  {
    var w1 := [50, 20, 10, 8, 5, 4, 0, 0, 3];
    assert Scan(w1, 1) == (0, SENTINEL);
    assert Scan(w1, 2) == (1, 0);
    assert Scan(w1, 3) == (2, 1);
    assert Scan(w1, 4) == (3, 2);
    assert Scan(w1, 5) == (4, 3);
    assert Scan(w1, 6) == (5, 4);
    assert Scan(w1, 7) == (5, 4);
    assert Scan(w1, 8) == (5, 4);
    assert Scan(w1, 9) == (8, 5);
    assert Merged(w1, 8, 5) == [50, 20, 10, 8, 5, 0, 0, 0, 0, 7];
    MergeStep(w1, [Node(7, 6)], 8, 8, 5, [50, 20, 10, 8, 5, 0, 0, 0, 0, 7], [Node(7, 6), Node(8, 5)]);
  }

  /** The two nodes the search picks for the merge of the next lemma. */
  lemma ExampleMerges4cScan()
    ensures Scan([50, 20, 10, 8, 5, 0, 0, 0, 0, 7], 10) == (4, 9)
  {
    var w2 := [50, 20, 10, 8, 5, 0, 0, 0, 0, 7];
    assert Scan(w2, 1) == (0, SENTINEL);
    assert Scan(w2, 2) == (1, 0);
    assert Scan(w2, 3) == (2, 1);
    assert Scan(w2, 4) == (3, 2);
    assert Scan(w2, 5) == (4, 3);
    ScanSkipsEmpty(w2, 5, 9);
  }

  /** Merge 3 of the build for the counts [50, 20, 10, 8, 5, 4, 2, 1]. */
  lemma ExampleMerges4c()
    requires Live([50, 20, 10, 8, 5, 0, 0, 0, 0, 7]) + 10 == 16
    ensures Live([50, 20, 10, 8, 0, 0, 0, 0, 0, 0, 12]) + 11 == 16
    ensures Built([50, 20, 10, 8, 5, 0, 0, 0, 0, 7], [Node(7, 6), Node(8, 5)], 8) == Built([50, 20, 10, 8, 0, 0, 0, 0, 0, 0, 12], [Node(7, 6), Node(8, 5), Node(4, 9)], 8)
  {
    var w2 := [50, 20, 10, 8, 5, 0, 0, 0, 0, 7];
    ExampleMerges4cScan();
    assert Merged(w2, 4, 9) == [50, 20, 10, 8, 0, 0, 0, 0, 0, 0, 12];
    MergeStep(w2, [Node(7, 6), Node(8, 5)], 8, 4, 9, [50, 20, 10, 8, 0, 0, 0, 0, 0, 0, 12], [Node(7, 6), Node(8, 5), Node(4, 9)]);
  }

  /** The two nodes the search picks for the merge of the next lemma. */
  lemma ExampleMerges4dScan()
    ensures Scan([50, 20, 10, 8, 0, 0, 0, 0, 0, 0, 12], 11) == (3, 2)
  {
    var w3 := [50, 20, 10, 8, 0, 0, 0, 0, 0, 0, 12];
    assert Scan(w3, 1) == (0, SENTINEL);
    assert Scan(w3, 2) == (1, 0);
    assert Scan(w3, 3) == (2, 1);
    assert Scan(w3, 4) == (3, 2);
    ScanSkipsEmpty(w3, 4, 10);
  }

  /** Merge 4 of the build for the counts [50, 20, 10, 8, 5, 4, 2, 1]. */
  lemma ExampleMerges4d()
    requires Live([50, 20, 10, 8, 0, 0, 0, 0, 0, 0, 12]) + 11 == 16
    ensures Live([50, 20, 0, 0, 0, 0, 0, 0, 0, 0, 12, 18]) + 12 == 16
    ensures Built([50, 20, 10, 8, 0, 0, 0, 0, 0, 0, 12], [Node(7, 6), Node(8, 5), Node(4, 9)], 8) == Built([50, 20, 0, 0, 0, 0, 0, 0, 0, 0, 12, 18], [Node(7, 6), Node(8, 5), Node(4, 9), Node(3, 2)], 8)
  {
    var w3 := [50, 20, 10, 8, 0, 0, 0, 0, 0, 0, 12];
    ExampleMerges4dScan();
    assert Merged(w3, 3, 2) == [50, 20, 0, 0, 0, 0, 0, 0, 0, 0, 12, 18];
    MergeStep(w3, [Node(7, 6), Node(8, 5), Node(4, 9)], 8, 3, 2, [50, 20, 0, 0, 0, 0, 0, 0, 0, 0, 12, 18], [Node(7, 6), Node(8, 5), Node(4, 9), Node(3, 2)]);
  }

  /** The two nodes the search picks for the merge of the next lemma. */
  lemma ExampleMerges4eScan()
    ensures Scan([50, 20, 0, 0, 0, 0, 0, 0, 0, 0, 12, 18], 12) == (10, 11)
  {
    var w4 := [50, 20, 0, 0, 0, 0, 0, 0, 0, 0, 12, 18];
    assert Scan(w4, 1) == (0, SENTINEL);
    assert Scan(w4, 2) == (1, 0);
    ScanSkipsEmpty(w4, 2, 10);
    assert Scan(w4, 11) == (10, 1);
  }

  /** Merge 5 of the build for the counts [50, 20, 10, 8, 5, 4, 2, 1]. */
  lemma ExampleMerges4e()
    requires Live([50, 20, 0, 0, 0, 0, 0, 0, 0, 0, 12, 18]) + 12 == 16
    ensures Live([50, 20, 0, 0, 0, 0, 0, 0, 0, 0, 0, 0, 30]) + 13 == 16
    ensures Built([50, 20, 0, 0, 0, 0, 0, 0, 0, 0, 12, 18], [Node(7, 6), Node(8, 5), Node(4, 9), Node(3, 2)], 8) == Built([50, 20, 0, 0, 0, 0, 0, 0, 0, 0, 0, 0, 30], [Node(7, 6), Node(8, 5), Node(4, 9), Node(3, 2), Node(10, 11)], 8)
  {
    var w4 := [50, 20, 0, 0, 0, 0, 0, 0, 0, 0, 12, 18];
    ExampleMerges4eScan();
    assert Merged(w4, 10, 11) == [50, 20, 0, 0, 0, 0, 0, 0, 0, 0, 0, 0, 30];
    MergeStep(w4, [Node(7, 6), Node(8, 5), Node(4, 9), Node(3, 2)], 8, 10, 11, [50, 20, 0, 0, 0, 0, 0, 0, 0, 0, 0, 0, 30], [Node(7, 6), Node(8, 5), Node(4, 9), Node(3, 2), Node(10, 11)]);
  }

  /** The two nodes the search picks for the merge of the next lemma. */
  lemma ExampleMerges4fScan()
    ensures Scan([50, 20, 0, 0, 0, 0, 0, 0, 0, 0, 0, 0, 30], 13) == (1, 12)
  {
    var w5 := [50, 20, 0, 0, 0, 0, 0, 0, 0, 0, 0, 0, 30];
    assert Scan(w5, 1) == (0, SENTINEL);
    assert Scan(w5, 2) == (1, 0);
    ScanSkipsEmpty(w5, 2, 12);
  }

  /** Merge 6 of the build for the counts [50, 20, 10, 8, 5, 4, 2, 1]. */
  lemma ExampleMerges4f()
    requires Live([50, 20, 0, 0, 0, 0, 0, 0, 0, 0, 0, 0, 30]) + 13 == 16
    ensures Live([50, 0, 0, 0, 0, 0, 0, 0, 0, 0, 0, 0, 0, 50]) + 14 == 16
    ensures Built([50, 20, 0, 0, 0, 0, 0, 0, 0, 0, 0, 0, 30], [Node(7, 6), Node(8, 5), Node(4, 9), Node(3, 2), Node(10, 11)], 8) == Built([50, 0, 0, 0, 0, 0, 0, 0, 0, 0, 0, 0, 0, 50], [Node(7, 6), Node(8, 5), Node(4, 9), Node(3, 2), Node(10, 11), Node(1, 12)], 8)
  {
    var w5: seq<nat> := [50, 20, 0, 0, 0, 0, 0, 0, 0, 0, 0, 0, 30];
    ExampleMerges4fScan();
    assert w5[1 := 0] == [50, 0, 0, 0, 0, 0, 0, 0, 0, 0, 0, 0, 30];
    assert w5[1 := 0][12 := 0] == [50, 0, 0, 0, 0, 0, 0, 0, 0, 0, 0, 0, 0];
    assert w5[1] + w5[12] == 50;
    assert Merged(w5, 1, 12) == w5[1 := 0][12 := 0] + [w5[1] + w5[12]];
    assert Merged(w5, 1, 12) == [50, 0, 0, 0, 0, 0, 0, 0, 0, 0, 0, 0, 0, 50];
    MergeStep(w5, [Node(7, 6), Node(8, 5), Node(4, 9), Node(3, 2), Node(10, 11)], 8, 1, 12, [50, 0, 0, 0, 0, 0, 0, 0, 0, 0, 0, 0, 0, 50], [Node(7, 6), Node(8, 5), Node(4, 9), Node(3, 2), Node(10, 11), Node(1, 12)]);
  }

  /** Empty nodes do not change the minimum search. */
  lemma {:induction false} ScanSkipsEmpty(w: seq<nat>, lo: nat, k: nat)
    requires lo <= k <= |w| && forall i | lo <= i < k :: w[i] == 0
    ensures Scan(w, k) == Scan(w, lo)
    decreases k
  {
    if k > lo {
      ScanSkipsEmpty(w, lo, k - 1);
    }
  }

  /** The two nodes the search picks for the merge of the next lemma. */
  lemma ExampleMerges4gScan()
    ensures Scan([50, 0, 0, 0, 0, 0, 0, 0, 0, 0, 0, 0, 0, 50], 14) == (0, 13)
  {
    var w6 := [50, 0, 0, 0, 0, 0, 0, 0, 0, 0, 0, 0, 0, 50];
    assert Scan(w6, 1) == (0, SENTINEL);
    ScanSkipsEmpty(w6, 1, 13);
  }

  /** Merge 7 of the build for the counts [50, 20, 10, 8, 5, 4, 2, 1]. */
  lemma ExampleMerges4g()
    requires Live([50, 0, 0, 0, 0, 0, 0, 0, 0, 0, 0, 0, 0, 50]) + 14 == 16
    ensures Live([0, 0, 0, 0, 0, 0, 0, 0, 0, 0, 0, 0, 0, 0, 100]) + 15 == 16
    ensures Built([50, 0, 0, 0, 0, 0, 0, 0, 0, 0, 0, 0, 0, 50], [Node(7, 6), Node(8, 5), Node(4, 9), Node(3, 2), Node(10, 11), Node(1, 12)], 8) == Built([0, 0, 0, 0, 0, 0, 0, 0, 0, 0, 0, 0, 0, 0, 100], [Node(7, 6), Node(8, 5), Node(4, 9), Node(3, 2), Node(10, 11), Node(1, 12), Node(0, 13)], 8)
  {
    var w6 := [50, 0, 0, 0, 0, 0, 0, 0, 0, 0, 0, 0, 0, 50];
    ExampleMerges4gScan();
    assert Merged(w6, 0, 13) == [0, 0, 0, 0, 0, 0, 0, 0, 0, 0, 0, 0, 0, 0, 100];
    MergeStep(w6, [Node(7, 6), Node(8, 5), Node(4, 9), Node(3, 2), Node(10, 11), Node(1, 12)], 8, 0, 13, [0, 0, 0, 0, 0, 0, 0, 0, 0, 0, 0, 0, 0, 0, 100], [Node(7, 6), Node(8, 5), Node(4, 9), Node(3, 2), Node(10, 11), Node(1, 12), Node(0, 13)]);
  }

  /** The two nodes the search picks for the merge of the next lemma. */
  lemma ExampleMerges4hScan()
    ensures Scan([0, 0, 0, 0, 0, 0, 0, 0, 0, 0, 0, 0, 0, 0, 100], 15) == (14, SENTINEL)
  {
    var w7 := [0, 0, 0, 0, 0, 0, 0, 0, 0, 0, 0, 0, 0, 0, 100];
    assert Scan(w7, 1) == (SENTINEL, SENTINEL);
    ScanSkipsEmpty(w7, 1, 14);
  }

  /** The build for the counts [50, 20, 10, 8, 5, 4, 2, 1] stops after 7 merges. */
  lemma ExampleMerges4h()
    requires Live([0, 0, 0, 0, 0, 0, 0, 0, 0, 0, 0, 0, 0, 0, 100]) + 15 == 16
    ensures Built([0, 0, 0, 0, 0, 0, 0, 0, 0, 0, 0, 0, 0, 0, 100], [Node(7, 6), Node(8, 5), Node(4, 9), Node(3, 2), Node(10, 11), Node(1, 12), Node(0, 13)], 8) == ([0, 0, 0, 0, 0, 0, 0, 0, 0, 0, 0, 0, 0, 0, 100], [Node(7, 6), Node(8, 5), Node(4, 9), Node(3, 2), Node(10, 11), Node(1, 12), Node(0, 13)])
  {
    var w7 := [0, 0, 0, 0, 0, 0, 0, 0, 0, 0, 0, 0, 0, 0, 100];
    ExampleMerges4hScan();
    BuiltStep(w7, [Node(7, 6), Node(8, 5), Node(4, 9), Node(3, 2), Node(10, 11), Node(1, 12), Node(0, 13)], 8);
  }

  /** The tree built for the counts [50, 20, 10, 8, 5, 4, 2, 1]. */
  lemma ExampleTree4()
    ensures BuildTree([50, 20, 10, 8, 5, 4, 2, 1], 8) == Tree(8, 14, Layout(8, [Node(7, 6), Node(8, 5), Node(4, 9), Node(3, 2), Node(10, 11), Node(1, 12), Node(0, 13)]))
  {
    assert [50, 20, 10, 8, 5, 4, 2, 1][..8] == [50, 20, 10, 8, 5, 4, 2, 1];
    assert Normalized([50, 20, 10, 8, 5, 4, 2, 1]) == [50, 20, 10, 8, 5, 4, 2, 1];
    ExampleMerges4a();
    ExampleMerges4b();
    ExampleMerges4c();
    ExampleMerges4d();
    ExampleMerges4e();
    ExampleMerges4f();
    ExampleMerges4g();
    ExampleMerges4h();
  }

  /** The code table of that tree. */
  lemma ExampleCodes4()
    requires Ordered(Tree(8, 14, Layout(8, [Node(7, 6), Node(8, 5), Node(4, 9), Node(3, 2), Node(10, 11), Node(1, 12), Node(0, 13)])))
    ensures var c := CodeTable(Tree(8, 14, Layout(8, [Node(7, 6), Node(8, 5), Node(4, 9), Node(3, 2), Node(10, 11), Node(1, 12), Node(0, 13)]))).codes;
            c[0] == CodeEntry(0, 1) && c[1] == CodeEntry(2, 2) && c[2] == CodeEntry(15, 4) && c[3] == CodeEntry(14, 4) && c[4] == CodeEntry(12, 4) && c[5] == CodeEntry(27, 5) && c[6] == CodeEntry(53, 6) && c[7] == CodeEntry(52, 6)
  {
    var t := Tree(8, 14, Layout(8, [Node(7, 6), Node(8, 5), Node(4, 9), Node(3, 2), Node(10, 11), Node(1, 12), Node(0, 13)]));
    assert t.nodes[8] == Node(7, 6);
    assert t.nodes[9] == Node(8, 5);
    assert t.nodes[10] == Node(4, 9);
    assert t.nodes[11] == Node(3, 2);
    assert t.nodes[12] == Node(10, 11);
    assert t.nodes[13] == Node(1, 12);
    assert t.nodes[14] == Node(0, 13);
    var T0 := seq(MAX_NUM_SYMBOLS, _ => CodeEntry(0, 0));
    var T1 := T0[0 := CodeEntry(0, 1)];
    assert Assign(t, 0, 0, 1, T0) == T1;
    var T2 := T1[1 := CodeEntry(2, 2)];
    assert Assign(t, 1, 2, 2, T1) == T2;
    var T3 := T2[4 := CodeEntry(12, 4)];
    assert Assign(t, 4, 12, 4, T2) == T3;
    var T4 := T3[7 := CodeEntry(52, 6)];
    assert Assign(t, 7, 52, 6, T3) == T4;
    var T5 := T4[6 := CodeEntry(53, 6)];
    assert Assign(t, 6, 53, 6, T4) == T5;
    assert Assign(t, 8, 26, 5, T3) == T5;
    var T6 := T5[5 := CodeEntry(27, 5)];
    assert Assign(t, 5, 27, 5, T5) == T6;
    assert Assign(t, 9, 13, 4, T3) == T6;
    assert Assign(t, 10, 6, 3, T2) == T6;
    var T7 := T6[3 := CodeEntry(14, 4)];
    assert Assign(t, 3, 14, 4, T6) == T7;
    var T8 := T7[2 := CodeEntry(15, 4)];
    assert Assign(t, 2, 15, 4, T7) == T8;
    assert Assign(t, 11, 7, 3, T6) == T8;
    assert Assign(t, 12, 3, 2, T2) == T8;
    assert Assign(t, 13, 1, 1, T1) == T8;
    assert Assign(t, 14, 0, 0, T0) == T8;
  }

  /** The counts 50, 20, 10, 8, 5, 4, 2, 1 take 220 bits in all. */
  lemma ExampleLength4()
    ensures WeightedLength([50, 20, 10, 8, 5, 4, 2, 1], CodeTable(BuildTree([50, 20, 10, 8, 5, 4, 2, 1], 8)).codes, 8) == 220
  {
    ExampleTree4();
    ExampleCodes4();
    var c := CodeTable(BuildTree([50, 20, 10, 8, 5, 4, 2, 1], 8)).codes;
    assert WeightedLength([50, 20, 10, 8, 5, 4, 2, 1], c, 1) == 50;
    assert WeightedLength([50, 20, 10, 8, 5, 4, 2, 1], c, 2) == 90;
    assert WeightedLength([50, 20, 10, 8, 5, 4, 2, 1], c, 3) == 130;
    assert WeightedLength([50, 20, 10, 8, 5, 4, 2, 1], c, 4) == 162;
    assert WeightedLength([50, 20, 10, 8, 5, 4, 2, 1], c, 5) == 182;
    assert WeightedLength([50, 20, 10, 8, 5, 4, 2, 1], c, 6) == 202;
    assert WeightedLength([50, 20, 10, 8, 5, 4, 2, 1], c, 7) == 214;
    assert WeightedLength([50, 20, 10, 8, 5, 4, 2, 1], c, 8) == 220;
  }
}
