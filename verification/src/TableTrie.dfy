/**
  The decoder's tables as a trie over code bits. A cell is reached by a bit string q of at least ten bits: the first ten
  bits index the lookup table; for a longer q the cell is the slot, for the last bit, of the inner node for the bits
  before it. Inner node n = 0, 1, 2, ... is referred to as -(2n + 1) and owns the slots tree[2n] and tree[2n + 1]; the
  ghost map `nodes` gives the number of the inner node for a bit string.
 */
module TableTrie {
  import opened Bits
  import opened TableBound

  type Nodes = map<seq<bool>, nat>

  function NodeRef(n: nat): int { -(2 * n + 1) }

  function Init(q: seq<bool>): seq<bool>
    requires q != []
  {
    q[..|q| - 1]
  }

  function LastBit(q: seq<bool>): nat
    requires q != []
  {
    Bit(q[|q| - 1])
  }

  predicate HasCell(nodes: Nodes, q: seq<bool>) {
    |q| == 10 || (|q| > 10 && Init(q) in nodes)
  }

  predicate Shaped(look: seq<int>, tree: seq<int>, nodes: Nodes) {
    && |look| == FAST_LOOKUP_SIZE && |tree| == TREE_SIZE && 2 * |nodes| <= TREE_SIZE
    && forall p :: p in nodes ==> nodes[p] < |nodes|
  }

  function Cell(look: seq<int>, tree: seq<int>, nodes: Nodes, q: seq<bool>): int
    requires Shaped(look, tree, nodes) && HasCell(nodes, q)
  {
    if |q| == 10 then RootCell(look, q) else tree[2 * nodes[Init(q)] + LastBit(q)]
  }

  function RootCell(look: seq<int>, q: seq<bool>): int
    requires |look| == FAST_LOOKUP_SIZE && |q| == 10
  {
    RootIndex(q);
    look[FromBits(q)]
  }

  lemma RootIndex(q: seq<bool>)
    requires |q| == 10
    ensures FromBits(q) < FAST_LOOKUP_SIZE && ToBits(FromBits(q), 10) == q
  {
    FromBitsBound(q);
    ToFromBits(q);
    Pow2Values();
  }

  /** The cell q belongs to the code of symbol s: the code itself or, if it has at most ten bits, any extension of it. */
  ghost predicate LeafAt(codes: seq<seq<bool>>, done: nat, s: nat, q: seq<bool>) {
    s < done && Coded(codes, s) && if |codes[s]| <= 10 then |q| == 10 && codes[s] <= q else codes[s] == q
  }

  function LeafValue(codes: seq<seq<bool>>, s: nat): int
    requires Coded(codes, s)
  {
    if |codes[s]| <= 10 then |codes[s]| * 512 + s else s
  }

  /** A cell holds the reference of its inner node, the entry of the symbol it belongs to, or nothing. */
  ghost predicate CellOk(codes: seq<seq<bool>>, done: nat, value: int, nodes: Nodes, q: seq<bool>) {
    && (q in nodes ==> value == NodeRef(nodes[q]))
    && (forall s: nat :: LeafAt(codes, done, s, q) ==> value == LeafValue(codes, s))
    && (q !in nodes && (forall s: nat :: !LeafAt(codes, done, s, q)) ==> value == 0)
  }

  ghost predicate CellAt(codes: seq<seq<bool>>, done: nat, look: seq<int>, tree: seq<int>, nodes: Nodes, q: seq<bool>)
    requires Shaped(look, tree, nodes)
  {
    HasCell(nodes, q) ==> CellOk(codes, done, Cell(look, tree, nodes, q), nodes, q)
  }

  ghost predicate NodeOk(codes: seq<seq<bool>>, nodes: Nodes, p: seq<bool>) {
    p in nodes ==> |p| >= 10 && Owned(codes, |codes|, p) && (|p| > 10 ==> Init(p) in nodes)
  }

  ghost predicate Apart(nodes: Nodes, p: seq<bool>, q: seq<bool>) {
    p in nodes && q in nodes && p != q ==> nodes[p] != nodes[q]
  }

  ghost predicate Placed(codes: seq<seq<bool>>, nodes: Nodes, s: nat) {
    Coded(codes, s) && |codes[s]| > 10 ==> Init(codes[s]) in nodes
  }

  /** The tables when the symbols below `done` have been inserted, and maybe some inner nodes for the next one. */
  ghost predicate TrieInv(codes: seq<seq<bool>>, done: nat, look: seq<int>, tree: seq<int>, nodes: Nodes) {
    && Shaped(look, tree, nodes) && done <= |codes| <= 288
    && (forall p :: NodeOk(codes, nodes, p))
    && (forall p, q :: Apart(nodes, p, q))
    && (forall s: nat :: s < done ==> Placed(codes, nodes, s))
    && (forall q :: CellAt(codes, done, look, tree, nodes, q))
    && (forall k :: 2 * |nodes| <= k < TREE_SIZE ==> tree[k] == 0)
  }

  lemma EmptyTrie(codes: seq<seq<bool>>, look: seq<int>, tree: seq<int>)
    requires |look| == FAST_LOOKUP_SIZE && |tree| == TREE_SIZE && |codes| <= 288
    requires forall i :: 0 <= i < |look| ==> look[i] == 0
    requires forall i :: 0 <= i < |tree| ==> tree[i] == 0
    ensures TrieInv(codes, 0, look, tree, map[])
  {
    forall q | HasCell(map[], q) ensures CellAt(codes, 0, look, tree, map[], q) {
      RootIndex(q);
    }
  }

  lemma UniqueCode(codes: seq<seq<bool>>, s: nat, t: nat, bits: seq<bool>)
    requires PrefixFreeCodes(codes) && Coded(codes, s) && Coded(codes, t)
    requires codes[s] <= bits && codes[t] <= bits
    ensures s == t
  {
    assert NotPrefix(codes, s, t) && NotPrefix(codes, t, s);
  }

  /** A cell belongs to at most one symbol. */
  lemma UniqueLeaf(codes: seq<seq<bool>>, done: nat, s: nat, t: nat, q: seq<bool>)
    requires PrefixFreeCodes(codes) && LeafAt(codes, done, s, q) && LeafAt(codes, done, t, q)
    ensures s == t
  {
    UniqueCode(codes, s, t, q);
  }

  /** A cell of an inner node belongs to no symbol. */
  lemma InnerIsNoLeaf(codes: seq<seq<bool>>, done: nat, s: nat, t: nat, q: seq<bool>)
    requires PrefixFreeCodes(codes) && Inner(codes, t, q)
    ensures !LeafAt(codes, done, s, q)
  {
    assert NotPrefix(codes, s, t);
  }

  lemma NodeIsNoLeaf(codes: seq<seq<bool>>, nodes: Nodes, done: nat, s: nat, q: seq<bool>)
    requires PrefixFreeCodes(codes) && NodeOk(codes, nodes, q) && q in nodes
    ensures !LeafAt(codes, done, s, q)
  {
    var t: nat :| t < |codes| && Inner(codes, t, q);
    InnerIsNoLeaf(codes, done, s, t, q);
  }

  // ---- inserting the next symbol: its cells get its entry ----

  /** One more symbol, for a cell that gets its entry or keeps its value. */
  lemma CellStep(codes: seq<seq<bool>>, s: nat, done: nat, value: int, value': int, nodes: Nodes, q: seq<bool>)
    requires done == s + 1
    requires PrefixFreeCodes(codes) && CellOk(codes, s, value, nodes, q) && NodeOk(codes, nodes, q)
    requires LeafAt(codes, done, s, q) ==> value' == LeafValue(codes, s)
    requires !LeafAt(codes, done, s, q) ==> value' == value
    ensures CellOk(codes, done, value', nodes, q)
  {
    if LeafAt(codes, done, s, q) {
      if q in nodes {
        NodeIsNoLeaf(codes, nodes, done, s, q);
      }
      forall t: nat | LeafAt(codes, done, t, q) ensures t == s {
        UniqueLeaf(codes, done, s, t, q);
      }
    } else {
      forall t: nat ensures LeafAt(codes, done, t, q) <==> LeafAt(codes, s, t, q) {
      }
    }
  }

  ghost predicate CellStepped(codes: seq<seq<bool>>, s: nat, look: seq<int>, tree: seq<int>, nodes: Nodes,
                              look': seq<int>, tree': seq<int>, q: seq<bool>)
    requires s < |codes| && Shaped(look, tree, nodes) && Shaped(look', tree', nodes) && HasCell(nodes, q)
  {
    Cell(look', tree', nodes, q)
      == if LeafAt(codes, s + 1, s, q) then LeafValue(codes, s) else Cell(look, tree, nodes, q)
  }

  /** New tables that differ from the old ones in the cells of symbol s only. */
  lemma AddSymbol(codes: seq<seq<bool>>, s: nat, look: seq<int>, tree: seq<int>, nodes: Nodes, look': seq<int>, tree': seq<int>)
    requires PrefixFreeCodes(codes) && TrieInv(codes, s, look, tree, nodes) && s < |codes| && Placed(codes, nodes, s)
    requires Shaped(look', tree', nodes)
    requires forall q :: HasCell(nodes, q) ==> CellStepped(codes, s, look, tree, nodes, look', tree', q)
    requires forall k :: 2 * |nodes| <= k < TREE_SIZE ==> tree'[k] == tree[k]
    ensures TrieInv(codes, s + 1, look', tree', nodes)
  {
    var done := s + 1;
    forall q ensures CellAt(codes, done, look', tree', nodes, q) {
      if HasCell(nodes, q) {
        assert CellAt(codes, s, look, tree, nodes, q) && NodeOk(codes, nodes, q);
        CellStep(codes, s, done, Cell(look, tree, nodes, q), Cell(look', tree', nodes, q), nodes, q);
      }
    }
  }

  lemma AddShort(codes: seq<seq<bool>>, s: nat, look: seq<int>, tree: seq<int>, nodes: Nodes, look': seq<int>)
    requires PrefixFreeCodes(codes) && TrieInv(codes, s, look, tree, nodes)
    requires s < |codes| && Coded(codes, s) && |codes[s]| <= 10 && |look'| == FAST_LOOKUP_SIZE
    requires forall i :: 0 <= i < FAST_LOOKUP_SIZE ==>
      look'[i] == if Starts(i, codes[s]) then LeafValue(codes, s) else look[i]
    ensures TrieInv(codes, s + 1, look', tree, nodes)
  {
    forall q | HasCell(nodes, q) ensures CellStepped(codes, s, look, tree, nodes, look', tree, q) {
      if |q| == 10 {
        RootIndex(q);
        StartsPrefix(FromBits(q), 10, codes[s]);
      }
    }
    AddSymbol(codes, s, look, tree, nodes, look', tree);
  }

  /** The bit buffer value starts with the given code. */
  predicate Starts(buffer: nat, code: seq<bool>) {
    ToBits(buffer, |code|) == code
  }

  lemma StartsPrefix(i: nat, n: nat, code: seq<bool>)
    requires |code| <= n
    ensures Starts(i, code) <==> code <= ToBits(i, n)
  {
    ToBitsSplit(i, |code|, n);
  }

  lemma AddLeaf(codes: seq<seq<bool>>, s: nat, look: seq<int>, tree: seq<int>, nodes: Nodes, slot: nat)
    requires PrefixFreeCodes(codes) && TrieInv(codes, s, look, tree, nodes)
    requires s < |codes| && Coded(codes, s) && |codes[s]| > 10 && Init(codes[s]) in nodes
    requires slot == 2 * nodes[Init(codes[s])] + LastBit(codes[s])
    ensures TrieInv(codes, s + 1, look, tree[slot := s], nodes)
  {
    var tree' := tree[slot := s];
    forall q | HasCell(nodes, q) ensures CellStepped(codes, s, look, tree, nodes, look, tree', q) {
      if |q| > 10 {
        SameSlot(nodes, q, codes[s]);
      }
    }
    AddSymbol(codes, s, look, tree, nodes, look, tree');
  }

  lemma SkipSymbol(codes: seq<seq<bool>>, s: nat, look: seq<int>, tree: seq<int>, nodes: Nodes)
    requires PrefixFreeCodes(codes) && TrieInv(codes, s, look, tree, nodes) && s < |codes| && !Coded(codes, s)
    ensures TrieInv(codes, s + 1, look, tree, nodes)
  {
    AddSymbol(codes, s, look, tree, nodes, look, tree);
  }

  /** Different cells have different slots. */
  lemma SameSlot(nodes: Nodes, q: seq<bool>, r: seq<bool>)
    requires |q| > 10 && |r| > 10 && Init(q) in nodes && Init(r) in nodes
    requires forall a, b :: Apart(nodes, a, b)
    ensures 2 * nodes[Init(q)] + LastBit(q) == 2 * nodes[Init(r)] + LastBit(r) <==> q == r
  {
    assert Apart(nodes, Init(q), Init(r));
    assert q == Init(q) + [q[|q| - 1]] && r == Init(r) + [r[|r| - 1]];
  }

  // ---- inner nodes on the way to a long code ----

  /** q is the path of an inner node that the code of symbol s needs, and its cell exists. */
  ghost predicate Wanted(codes: seq<seq<bool>>, s: nat, nodes: Nodes, q: seq<bool>) {
    s < |codes| && |codes[s]| > 10 && Inner(codes, s, q) && HasCell(nodes, q)
  }

  lemma FollowNode(codes: seq<seq<bool>>, s: nat, look: seq<int>, tree: seq<int>, nodes: Nodes, q: seq<bool>)
    requires PrefixFreeCodes(codes) && TrieInv(codes, s, look, tree, nodes) && Wanted(codes, s, nodes, q)
    ensures Cell(look, tree, nodes, q) != 0 <==> q in nodes
    ensures q in nodes ==> Cell(look, tree, nodes, q) == NodeRef(nodes[q])
  {
    assert CellAt(codes, s, look, tree, nodes, q);
    forall t: nat ensures !LeafAt(codes, s, t, q) {
      InnerIsNoLeaf(codes, s, t, s, q);
    }
  }

  lemma CellMoreNodes(codes: seq<seq<bool>>, done: nat, value: int, nodes: Nodes, q: seq<bool>, r: seq<bool>, n: nat)
    requires CellOk(codes, done, value, nodes, r) && r != q
    ensures CellOk(codes, done, value, nodes[q := n], r)
  {
  }

  lemma NodeAdded(codes: seq<seq<bool>>, s: nat, nodes: Nodes, q: seq<bool>, nodes': Nodes)
    requires forall p :: NodeOk(codes, nodes, p)
    requires Wanted(codes, s, nodes, q) && q !in nodes && nodes' == nodes[q := |nodes|]
    ensures forall p :: NodeOk(codes, nodes', p)
  {
    assert Owned(codes, |codes|, q);
    forall p ensures NodeOk(codes, nodes', p) {
      assert NodeOk(codes, nodes, p);
    }
  }

  lemma StillApart(nodes: Nodes, q: seq<bool>, nodes': Nodes)
    requires forall p :: p in nodes ==> nodes[p] < |nodes|
    requires forall a, b :: Apart(nodes, a, b)
    requires q !in nodes && nodes' == nodes[q := |nodes|]
    ensures forall a, b :: Apart(nodes', a, b)
  {
    forall a, b ensures Apart(nodes', a, b) {
      assert Apart(nodes, a, b);
    }
  }

  lemma RoomForNode(codes: seq<seq<bool>>, nodes: Nodes, q: seq<bool>, nodes': Nodes)
    requires AcceptedCodes(codes) && forall p :: NodeOk(codes, nodes', p)
    requires q !in nodes && nodes' == nodes[q := |nodes|]
    ensures |nodes'| == |nodes| + 1 && 2 * |nodes'| <= TREE_SIZE
  {
    forall p | p in nodes'.Keys ensures |p| >= 10 && Owned(codes, |codes|, p) {
      assert NodeOk(codes, nodes', p);
    }
    NodeBound(codes, nodes'.Keys);
  }

  /** The reference of the next node has been written into the cell of q. */
  ghost predicate Referred(look: seq<int>, tree: seq<int>, nodes: Nodes, q: seq<bool>, look': seq<int>, tree': seq<int>)
    requires Shaped(look, tree, nodes) && HasCell(nodes, q)
  {
    if |q| == 10
    then FromBits(q) < FAST_LOOKUP_SIZE && tree' == tree && look' == look[FromBits(q) := NodeRef(|nodes|)]
    else look' == look && tree' == tree[2 * nodes[Init(q)] + LastBit(q) := NodeRef(|nodes|)]
  }

  /** The tables after a node for q has been added: its reference goes into the cell of q. */
  lemma AddNode(codes: seq<seq<bool>>, s: nat, look: seq<int>, tree: seq<int>, nodes: Nodes, q: seq<bool>,
                look': seq<int>, tree': seq<int>)
    requires AcceptedCodes(codes) && PrefixFreeCodes(codes) && TrieInv(codes, s, look, tree, nodes)
    requires Wanted(codes, s, nodes, q) && q !in nodes
    requires Referred(look, tree, nodes, q, look', tree')
    ensures TrieInv(codes, s, look', tree', nodes[q := |nodes|])
  {
    var nodes' := nodes[q := |nodes|];
    NodeAdded(codes, s, nodes, q, nodes');
    StillApart(nodes, q, nodes');
    RoomForNode(codes, nodes, q, nodes');
    forall r ensures CellAt(codes, s, look', tree', nodes', r) {
      AddNodeCell(codes, s, look, tree, nodes, q, look', tree', r);
    }
    forall t: nat | t < s ensures Placed(codes, nodes', t) {
      assert Placed(codes, nodes, t);
    }
  }

  lemma AddNodeCell(codes: seq<seq<bool>>, s: nat, look: seq<int>, tree: seq<int>, nodes: Nodes, q: seq<bool>,
                    look': seq<int>, tree': seq<int>, r: seq<bool>)
    requires PrefixFreeCodes(codes) && TrieInv(codes, s, look, tree, nodes)
    requires Wanted(codes, s, nodes, q) && q !in nodes
    requires Referred(look, tree, nodes, q, look', tree')
    requires Shaped(look', tree', nodes[q := |nodes|]) && |nodes[q := |nodes|]| == |nodes| + 1
    ensures CellAt(codes, s, look', tree', nodes[q := |nodes|], r)
  {
    var nodes' := nodes[q := |nodes|];
    if r == q {
      forall t: nat ensures !LeafAt(codes, s, t, q) {
        InnerIsNoLeaf(codes, s, t, s, q);
      }
    } else if HasCell(nodes, r) {
      assert CellAt(codes, s, look, tree, nodes, r);
      assert Cell(look', tree', nodes', r) == Cell(look, tree, nodes, r) by {
        if |r| == 10 {
          RootIndex(r);
          if |q| == 10 { RootIndex(q); }
        } else if |q| > 10 {
          SameSlot(nodes, r, q);
        }
      }
      CellMoreNodes(codes, s, Cell(look, tree, nodes, r), nodes, q, r, |nodes|);
    } else if HasCell(nodes', r) {
      NewCell(codes, s, nodes, q, r);
    }
  }

  /** The cells below a new node belong to no symbol inserted before and lead to no node. */
  lemma NewCell(codes: seq<seq<bool>>, s: nat, nodes: Nodes, q: seq<bool>, r: seq<bool>)
    requires forall p :: NodeOk(codes, nodes, p)
    requires forall t: nat :: t < s ==> Placed(codes, nodes, t)
    requires q !in nodes && |r| > 10 && Init(r) == q
    ensures CellOk(codes, s, 0, nodes[q := |nodes|], r)
  {
    assert NodeOk(codes, nodes, r);
    forall t: nat ensures !LeafAt(codes, s, t, r) {
      if t < s {
        assert Placed(codes, nodes, t);
      }
    }
  }

  // ---- finding a symbol again ----

  /** Every prefix of a long code, from its tenth bit on, has a node. */
  lemma {:induction false} PrefixIsNode(codes: seq<seq<bool>>, nodes: Nodes, s: nat, d: nat)
    requires forall p :: NodeOk(codes, nodes, p)
    requires Placed(codes, nodes, s) && Coded(codes, s) && 10 <= d < |codes[s]|
    ensures codes[s][..d] in nodes
    decreases |codes[s]| - d
  {
    if d + 1 < |codes[s]| {
      PrefixIsNode(codes, nodes, s, d + 1);
      assert NodeOk(codes, nodes, codes[s][..d + 1]);
      assert Init(codes[s][..d + 1]) == codes[s][..d];
    }
  }

  /** One step down the tree along a long code: to the node of the longer prefix, or to the symbol. */
  lemma StepDown(codes: seq<seq<bool>>, look: seq<int>, tree: seq<int>, nodes: Nodes, s: nat, d: nat)
    requires TrieInv(codes, |codes|, look, tree, nodes)
    requires Coded(codes, s) && 10 <= d < |codes[s]|
    ensures codes[s][..d] in nodes && 2 * nodes[codes[s][..d]] + 1 < TREE_SIZE
    ensures d + 1 == |codes[s]| ==> tree[2 * nodes[codes[s][..d]] + Bit(codes[s][d])] == s
    ensures d + 1 < |codes[s]| ==> codes[s][..d + 1] in nodes
    ensures d + 1 < |codes[s]| ==>
      tree[2 * nodes[codes[s][..d]] + Bit(codes[s][d])] == NodeRef(nodes[codes[s][..d + 1]])
  {
    var q := codes[s][..d + 1];
    assert Placed(codes, nodes, s);
    PrefixIsNode(codes, nodes, s, d);
    assert Init(q) == codes[s][..d] && LastBit(q) == Bit(codes[s][d]);
    assert CellAt(codes, |codes|, look, tree, nodes, q);
    if d + 1 == |codes[s]| {
      assert q == codes[s];
      assert LeafAt(codes, |codes|, s, q);
    } else {
      PrefixIsNode(codes, nodes, s, d + 1);
    }
  }

  /** The lookup entry for a buffer that starts with a code, or with its first ten bits. */
  lemma LookUp(codes: seq<seq<bool>>, look: seq<int>, tree: seq<int>, nodes: Nodes, s: nat, buffer: nat)
    requires TrieInv(codes, |codes|, look, tree, nodes) && Coded(codes, s)
    requires if |codes[s]| <= 10 then Starts(buffer, codes[s]) else Starts(buffer, codes[s][..10])
    ensures |codes[s]| <= 10 ==> look[buffer % FAST_LOOKUP_SIZE] == |codes[s]| * 512 + s
    ensures |codes[s]| > 10 ==> codes[s][..10] in nodes
    ensures |codes[s]| > 10 ==> look[buffer % FAST_LOOKUP_SIZE] == NodeRef(nodes[codes[s][..10]])
  {
    var q := ToBits(buffer, 10);
    LookUpIndex(buffer);
    assert CellAt(codes, |codes|, look, tree, nodes, q);
    if |codes[s]| <= 10 {
      StartsPrefix(buffer, 10, codes[s]);
      assert LeafAt(codes, |codes|, s, q);
    } else {
      assert Placed(codes, nodes, s);
      PrefixIsNode(codes, nodes, s, 10);
    }
  }

  lemma LookUpIndex(buffer: nat)
    ensures buffer % FAST_LOOKUP_SIZE == FromBits(ToBits(buffer, 10))
  {
    FromToBits(buffer, 10);
    assert Pow2(10) == 1024 by { Pow2Values(); }
  }

  /** A positive lookup entry with a length that the bits read cover is not the entry of another symbol. */
  lemma EntryIsSymbol(codes: seq<seq<bool>>, look: seq<int>, tree: seq<int>, nodes: Nodes, s: nat, buffer: nat, n: nat)
    requires PrefixFreeCodes(codes) && TrieInv(codes, |codes|, look, tree, nodes) && Coded(codes, s)
    requires ToBits(buffer, n) <= codes[s] && n < |codes[s]|
    ensures !(0 < look[buffer % FAST_LOOKUP_SIZE] / 512 <= n)
  {
    var q := ToBits(buffer, 10);
    LookUpIndex(buffer);
    assert CellAt(codes, |codes|, look, tree, nodes, q);
    if t: nat :| LeafAt(codes, |codes|, t, q) {
      assert t < 512;
      if |codes[t]| <= n {
        StartsPrefix(buffer, 10, codes[t]);
        StartsPrefix(buffer, n, codes[t]);
        assert NotPrefix(codes, t, s);
      }
    }
  }
}
