/** tinfl_huff_table: the decoder's lookup table and tree, built from code lengths and used to decode symbols. */
module HuffTables {
  import opened Bits
  import opened Canonical
  import opened TableBound
  import opened TableTrie

  const MAX_SYMBOLS: nat := 288

  class HuffTable {
    const codeSize: array<nat>
    const lookUp: array<int>
    const tree: array<int>

    ghost predicate Valid() {
      && codeSize.Length == MAX_SYMBOLS && lookUp.Length == FAST_LOOKUP_SIZE && tree.Length == TREE_SIZE
      && lookUp != tree && codeSize as object != lookUp && codeSize as object != tree
    }

    /** The tables decode the canonical code of these lengths. */
    ghost predicate Ready(lens: seq<nat>)
      reads lookUp, tree
    {
      Decodable(lens) && Decodes(CodesOf(lens))
    }

    ghost predicate Decodes(codes: seq<seq<bool>>)
      reads lookUp, tree
    {
      PrefixFreeCodes(codes) && exists nodes :: TrieInv(codes, |codes|, lookUp[..], tree[..], nodes)
    }

    constructor ()
      ensures Valid() && fresh(codeSize) && fresh(lookUp) && fresh(tree)
    {
      codeSize := new nat[MAX_SYMBOLS];
      lookUp := new int[FAST_LOOKUP_SIZE];
      tree := new int[TREE_SIZE];
    }

    method Build(n: nat) returns (ok: bool)
      requires Valid() && n <= MAX_SYMBOLS && forall i :: 0 <= i < n ==> codeSize[i] <= MAX_CODE_SIZE
      modifies lookUp, tree
      ensures ok <==> Decodable(codeSize[..n])
      ensures ok ==> Ready(codeSize[..n])
    {
      hide TrieInv, PrefixFreeCodes, CodeBits, CodesBefore, NextCode, Used;
      ghost var lens := codeSize[..n];
      Clear();
      var totalSyms := CountSizes(n);
      var nextCode, usedSyms, total := FirstCodes(lens, totalSyms);
      if total != 65536 && usedSyms > 1 {
        return false;
      }
      ok := true;
      DecodableFits(lens);
      NoneBefore(lens, nextCode[..], MAX_CODE_SIZE);
      ghost var codes := CodesOf(lens);
      CanonicalPrefixFree(lens);
      assert AcceptedLens(lens);
      EmptyTrie(codes, lookUp[..], tree[..]);
      var treeNext := -1;
      ghost var nodes: Nodes := map[];
      for symIndex := 0 to n
        invariant lens == codeSize[..n]
        invariant CodesBefore(lens, symIndex, nextCode[..], MAX_CODE_SIZE)
        invariant TrieInv(codes, symIndex, lookUp[..], tree[..], nodes)
        invariant treeNext == NodeRef(|nodes|)
      {
        treeNext, nodes := InsertSymbol(lens, codes, symIndex, nextCode, treeNext, nodes);
      }
      assert lens[..n] == lens;
    }

    method InsertSymbol(ghost lens: seq<nat>, ghost codes: seq<seq<bool>>, symIndex: nat, nextCode: array<nat>,
                        treeNext: int, ghost nodes: Nodes)
      returns (treeNext': int, ghost nodes': Nodes)
      requires Valid() && symIndex < |lens| <= MAX_SYMBOLS && lens == codeSize[..|lens|] && codes == CodesOf(lens)
      requires nextCode.Length == 17 && nextCode != codeSize && nextCode as object != lookUp && nextCode as object != tree
      requires lens[symIndex] <= MAX_CODE_SIZE && AcceptedCodes(codes) && PrefixFreeCodes(codes)
      requires TrieInv(codes, symIndex, lookUp[..], tree[..], nodes)
      requires CodesBefore(lens, symIndex, nextCode[..], MAX_CODE_SIZE) && treeNext == NodeRef(|nodes|)
      modifies lookUp, tree, nextCode
      ensures CodesBefore(lens, symIndex + 1, nextCode[..], MAX_CODE_SIZE) && treeNext' == NodeRef(|nodes'|)
      ensures TrieInv(codes, symIndex + 1, lookUp[..], tree[..], nodes')
    {
      var size := codeSize[symIndex];
      treeNext', nodes' := treeNext, nodes;
      if size == 0 {
        NoCodeTaken(lens, symIndex, nextCode[..], MAX_CODE_SIZE);
        SkipSymbol(codes, symIndex, lookUp[..], tree[..], nodes);
      } else {
        var revCode := TakeCode(lens, symIndex, size, nextCode, MAX_CODE_SIZE);
        if size <= FAST_LOOKUP_BITS {
          InsertShort(codes, symIndex, revCode, nodes);
        } else {
          treeNext', nodes' := InsertLong(codes, symIndex, revCode, treeNext, nodes);
        }
      }
    }

    method Clear()
      requires Valid()
      modifies lookUp, tree
      ensures forall i :: 0 <= i < lookUp.Length ==> lookUp[i] == 0
      ensures forall i :: 0 <= i < tree.Length ==> tree[i] == 0
    {
      forall i | 0 <= i < lookUp.Length { lookUp[i] := 0; }
      forall i | 0 <= i < tree.Length { tree[i] := 0; }
    }

    method CountSizes(n: nat) returns (totalSyms: array<nat>)
      requires Valid() && n <= MAX_SYMBOLS && forall i :: 0 <= i < n ==> codeSize[i] <= MAX_CODE_SIZE
      ensures fresh(totalSyms) && totalSyms.Length == 16
      ensures forall l :: 0 <= l < 16 ==> totalSyms[l] == Count(codeSize[..n], l)
    {
      totalSyms := new nat[16](_ => 0);
      for i := 0 to n
        invariant forall l :: 0 <= l < 16 ==> totalSyms[l] == Count(codeSize[..i], l)
      {
        totalSyms[codeSize[i]] := totalSyms[codeSize[i]] + 1;
        assert codeSize[..i + 1][..i] == codeSize[..i];
      }
    }

    static method FirstCodes(ghost lens: seq<nat>, totalSyms: array<nat>)
      returns (nextCode: array<nat>, usedSyms: nat, total: nat)
      requires totalSyms.Length == 16 && forall l :: 0 <= l < 16 ==> totalSyms[l] == Count(lens, l)
      requires forall i :: 0 <= i < |lens| ==> lens[i] <= MAX_CODE_SIZE
      ensures fresh(nextCode) && nextCode.Length == 17
      ensures forall l :: 1 <= l <= MAX_CODE_SIZE ==> nextCode[l] == NextCode(lens, l)
      ensures usedSyms == Used(lens) && total == NextCode(lens, 16)
    {
      hide Count, Used, NextCode, UsedUpTo;
      LengthStep(lens, 0);
      nextCode := new nat[17];
      nextCode[0], nextCode[1] := 0, 0;
      usedSyms, total := 0, 0;
      for i := 1 to 16
        invariant usedSyms == UsedUpTo(lens, i - 1) && total == NextCode(lens, i)
        invariant forall l :: 1 <= l <= i ==> nextCode[l] == NextCode(lens, l)
      {
        LengthStep(lens, i);
        usedSyms := usedSyms + totalSyms[i];
        total := 2 * (total + totalSyms[i]);
        nextCode[i + 1] := total;
      }
      UsedIsUsedUpTo(lens, 15);
    }

    /** Fills every lookup entry whose index starts with the code. */
    method InsertShort(ghost codes: seq<seq<bool>>, symIndex: nat, revCode: nat, ghost nodes: Nodes)
      requires Valid() && Coded(codes, symIndex) && |codes[symIndex]| <= FAST_LOOKUP_BITS
      requires symIndex < codeSize.Length && codeSize[symIndex] == |codes[symIndex]|
      requires PrefixFreeCodes(codes) && TrieInv(codes, symIndex, lookUp[..], tree[..], nodes)
      requires revCode == FromBits(codes[symIndex])
      modifies lookUp
      ensures TrieInv(codes, symIndex + 1, lookUp[..], tree[..], nodes)
    {
      ghost var code, before := codes[symIndex], lookUp[..];
      var size := codeSize[symIndex];
      var entry := size * 512 + symIndex;
      var step := Pow2(size);
      var i := revCode;
      FromBitsBound(code);
      FirstStart(code);
      while i < FAST_LOOKUP_SIZE
        invariant step == Pow2(|code|) && Starts(i, code)
        invariant forall k :: 0 <= k < FAST_LOOKUP_SIZE ==>
          lookUp[k] == if k < i && Starts(k, code) then entry else before[k]
        decreases FAST_LOOKUP_SIZE - i
      {
        NoStartBetween(i, code);
        AddPow2(i, size);
        lookUp[i] := entry;
        i := i + step;
      }
      AddShort(codes, symIndex, before, tree[..], nodes, lookUp[..]);
    }

    /** Walks down the tree along the code, adding the nodes that are missing, and puts the symbol at the end. */
    method InsertLong(ghost codes: seq<seq<bool>>, symIndex: nat, revCode: nat, treeNext: int, ghost nodes: Nodes)
      returns (treeNext': int, ghost nodes': Nodes)
      requires Valid() && symIndex < |codes| && |codes[symIndex]| > FAST_LOOKUP_BITS
      requires symIndex < codeSize.Length && codeSize[symIndex] == |codes[symIndex]|
      requires AcceptedCodes(codes) && PrefixFreeCodes(codes) && TrieInv(codes, symIndex, lookUp[..], tree[..], nodes)
      requires revCode == FromBits(codes[symIndex]) && treeNext == NodeRef(|nodes|)
      modifies lookUp, tree
      ensures TrieInv(codes, symIndex + 1, lookUp[..], tree[..], nodes')
      ensures treeNext' == NodeRef(|nodes'|)
    {
      hide TrieInv, AcceptedCodes, PrefixFreeCodes, FromBits;
      ghost var code := codes[symIndex];
      var size, treeCur := codeSize[symIndex], 0;
      treeCur, treeNext', nodes' := EnterRoot(codes, symIndex, revCode, treeNext, nodes);
      ghost var d: nat := 10;
      var rest := Shr(revCode, 9);
      var j := size;
      while j > FAST_LOOKUP_BITS + 1
        invariant 10 <= d < size && d == 10 + (size - j)
        invariant rest == Shr(revCode, d - 1)
        invariant TrieInv(codes, symIndex, lookUp[..], tree[..], nodes')
        invariant code[..d] in nodes' && treeCur == NodeRef(nodes'[code[..d]])
        invariant treeNext' == NodeRef(|nodes'|)
      {
        rest := rest / 2;
        CodeBit(code, d);
        treeCur, treeNext', nodes' := Descend(codes, symIndex, rest % 2, treeCur, treeNext', nodes', d);
        j, d := j - 1, d + 1;
      }
      rest := rest / 2;
      CodeBit(code, d);
      PlaceLeaf(codes, symIndex, -(treeCur - rest % 2) - 1, nodes');
    }

    method PlaceLeaf(ghost codes: seq<seq<bool>>, symIndex: nat, slot: nat, ghost nodes: Nodes)
      requires Valid() && PrefixFreeCodes(codes) && TrieInv(codes, symIndex, lookUp[..], tree[..], nodes)
      requires symIndex < |codes| && |codes[symIndex]| > FAST_LOOKUP_BITS && Init(codes[symIndex]) in nodes
      requires slot == 2 * nodes[Init(codes[symIndex])] + LastBit(codes[symIndex])
      modifies tree
      ensures TrieInv(codes, symIndex + 1, lookUp[..], tree[..], nodes)
    {
      AddLeaf(codes, symIndex, lookUp[..], tree[..], nodes, slot);
      ghost var before := tree[..];
      tree[slot] := symIndex;
      assert tree[..] == before[slot := symIndex];
    }

    /** One step down the tree, to a node that is made if it is missing. */
    method Descend(ghost codes: seq<seq<bool>>, ghost symIndex: nat, bit: nat, treeCur: int, treeNext: int,
                   ghost nodes: Nodes, ghost d: nat)
      returns (treeCur': int, treeNext': int, ghost nodes': Nodes)
      requires Valid() && symIndex < |codes| && 10 <= d && d + 1 < |codes[symIndex]|
      requires AcceptedCodes(codes) && PrefixFreeCodes(codes) && TrieInv(codes, symIndex, lookUp[..], tree[..], nodes)
      requires codes[symIndex][..d] in nodes && treeCur == NodeRef(nodes[codes[symIndex][..d]])
      requires bit == Bit(codes[symIndex][d]) && treeNext == NodeRef(|nodes|)
      modifies tree
      ensures TrieInv(codes, symIndex, lookUp[..], tree[..], nodes')
      ensures codes[symIndex][..d + 1] in nodes' && treeCur' == NodeRef(nodes'[codes[symIndex][..d + 1]])
      ensures treeNext' == NodeRef(|nodes'|)
    {
      ghost var q := codes[symIndex][..d + 1];
      treeNext', nodes' := treeNext, nodes;
      ChildCell(codes, symIndex, lookUp[..], tree[..], nodes, d, q);
      var slot := -(treeCur - bit) - 1;
      treeCur' := tree[slot];
      if treeCur' == 0 {
        MakeChild(codes, symIndex, slot, treeNext, nodes, q);
        nodes' := nodes[q := |nodes|];
        treeCur', treeNext' := treeNext, treeNext - 2;
      }
    }

    method MakeChild(ghost codes: seq<seq<bool>>, ghost symIndex: nat, slot: nat, treeNext: int, ghost nodes: Nodes,
                     ghost q: seq<bool>)
      requires Valid() && AcceptedCodes(codes) && PrefixFreeCodes(codes)
      requires TrieInv(codes, symIndex, lookUp[..], tree[..], nodes) && Wanted(codes, symIndex, nodes, q)
      requires |q| > 10 && q !in nodes && slot == 2 * nodes[Init(q)] + LastBit(q) && treeNext == NodeRef(|nodes|)
      modifies tree
      ensures TrieInv(codes, symIndex, lookUp[..], tree[..], nodes[q := |nodes|])
      ensures |nodes[q := |nodes|]| == |nodes| + 1
    {
      ghost var before := tree[..];
      tree[slot] := treeNext;
      assert tree[..] == before[slot := treeNext];
      AddNode(codes, symIndex, lookUp[..], before, nodes, q, lookUp[..], tree[..]);
    }

    method EnterRoot(ghost codes: seq<seq<bool>>, ghost symIndex: nat, revCode: nat, treeNext: int, ghost nodes: Nodes)
      returns (treeCur: int, treeNext': int, ghost nodes': Nodes)
      requires Valid() && symIndex < |codes| && |codes[symIndex]| > FAST_LOOKUP_BITS
      requires AcceptedCodes(codes) && PrefixFreeCodes(codes) && TrieInv(codes, symIndex, lookUp[..], tree[..], nodes)
      requires revCode == FromBits(codes[symIndex]) && treeNext == NodeRef(|nodes|)
      modifies lookUp
      ensures TrieInv(codes, symIndex, lookUp[..], tree[..], nodes')
      ensures codes[symIndex][..10] in nodes' && treeCur == NodeRef(nodes'[codes[symIndex][..10]])
      ensures treeNext' == NodeRef(|nodes'|)
    {
      ghost var q := codes[symIndex][..10];
      treeNext', nodes' := treeNext, nodes;
      FollowNode(codes, symIndex, lookUp[..], tree[..], nodes, q);
      var slot := revCode % FAST_LOOKUP_SIZE;
      LowTenBits(codes[symIndex]);
      treeCur := lookUp[slot];
      if treeCur == 0 {
        ghost var before := lookUp[..];
        lookUp[slot] := treeNext;
        assert lookUp[..] == before[slot := treeNext];
        AddNode(codes, symIndex, before, tree[..], nodes, q, lookUp[..], tree[..]);
        nodes' := nodes[q := |nodes|];
        treeCur, treeNext' := treeNext, treeNext - 2;
      }
    }

    /**
      Decodes the symbol whose code the bit buffer starts with, by one lookup and, for codes longer than ten bits, a walk
      down the tree.
     */
    method Decode(bitBuf: nat, ghost codes: seq<seq<bool>>, ghost s: nat) returns (sym: nat, codeLen: nat)
      requires Valid() && Decodes(codes) && Coded(codes, s) && Starts(bitBuf, codes[s])
      ensures sym == s && codeLen == |codes[s]|
    {
      ghost var code := codes[s];
      ghost var nodes :| TrieInv(codes, |codes|, lookUp[..], tree[..], nodes);
      if |code| > 10 {
        BufferPrefix(bitBuf, code, 10, |code|);
      }
      LookUp(codes, lookUp[..], tree[..], nodes, s, bitBuf);
      var temp := lookUp[bitBuf % FAST_LOOKUP_SIZE];
      if temp >= 0 {
        codeLen, sym := temp / 512, temp % 512;
      } else {
        codeLen := FAST_LOOKUP_BITS;
        while true
          invariant 10 <= codeLen < |code| && code[..codeLen] in nodes && temp == NodeRef(nodes[code[..codeLen]])
          decreases |code| - codeLen
        {
          BufferBit(bitBuf, code, |code|, codeLen);
          StepDown(codes, lookUp[..], tree[..], nodes, s, codeLen);
          temp := tree[-temp - 1 + Shr(bitBuf, codeLen) % 2];
          codeLen := codeLen + 1;
          if temp >= 0 {
            break;
          }
        }
        sym := temp;
      }
    }

    /**
      Can the next symbol be decoded with the bits that have been read? The bits in the buffer and the code of the next
      symbol agree as far as both go.
     */
    method HasSymbol(bitBuf: nat, numBits: nat, ghost codes: seq<seq<bool>>, ghost s: nat) returns (found: bool)
      requires Valid() && Decodes(codes) && Coded(codes, s)
      requires codes[s] <= ToBits(bitBuf, numBits) || ToBits(bitBuf, numBits) <= codes[s]
      ensures found <==> |codes[s]| <= numBits
    {
      ghost var nodes :| TrieInv(codes, |codes|, lookUp[..], tree[..], nodes);
      if |codes[s]| <= numBits || numBits >= 10 {
        BufferPrefix(bitBuf, codes[s], if |codes[s]| <= 10 then |codes[s]| else 10, numBits);
        LookUp(codes, lookUp[..], tree[..], nodes, s, bitBuf);
      }
      if |codes[s]| > numBits {
        EntryIsSymbol(codes, lookUp[..], tree[..], nodes, s, bitBuf, numBits);
      }
      var temp := lookUp[bitBuf % FAST_LOOKUP_SIZE];
      if temp >= 0 {
        var codeLen := temp / 512;
        return codeLen != 0 && numBits >= codeLen;
      } else if numBits > FAST_LOOKUP_BITS {
        found := Walk(bitBuf, numBits, temp, codes, s, nodes);
      } else {
        found := false;
      }
    }

    method Walk(bitBuf: nat, numBits: nat, start: int, ghost codes: seq<seq<bool>>, ghost s: nat, ghost nodes: Nodes)
      returns (found: bool)
      requires Valid() && Coded(codes, s) && TrieInv(codes, |codes|, lookUp[..], tree[..], nodes)
      requires codes[s] <= ToBits(bitBuf, numBits) || ToBits(bitBuf, numBits) <= codes[s]
      requires numBits > FAST_LOOKUP_BITS && |codes[s]| > FAST_LOOKUP_BITS
      requires codes[s][..10] in nodes && start == NodeRef(nodes[codes[s][..10]])
      ensures found <==> |codes[s]| <= numBits
    {
      ghost var code := codes[s];
      var temp := start;
      var codeLen := FAST_LOOKUP_BITS;
      while true
        invariant 10 <= codeLen < |code| && codeLen + 1 <= numBits
        invariant code[..codeLen] in nodes && temp == NodeRef(nodes[code[..codeLen]])
        decreases |code| - codeLen
      {
        BufferBit(bitBuf, code, numBits, codeLen);
        StepDown(codes, lookUp[..], tree[..], nodes, s, codeLen);
        temp := tree[-temp - 1 + Shr(bitBuf, codeLen) % 2];
        codeLen := codeLen + 1;
        if temp >= 0 || numBits < codeLen + 1 {
          break;
        }
      }
      found := temp >= 0;
    }
  }

  lemma ChildCell(codes: seq<seq<bool>>, s: nat, look: seq<int>, tree: seq<int>, nodes: Nodes, d: nat, q: seq<bool>)
    requires s < |codes| && 10 <= d && d + 1 < |codes[s]| && q == codes[s][..d + 1]
    requires PrefixFreeCodes(codes) && TrieInv(codes, s, look, tree, nodes) && codes[s][..d] in nodes
    ensures |q| > 10 && Init(q) == codes[s][..d] && LastBit(q) == Bit(codes[s][d]) && Wanted(codes, s, nodes, q)
    ensures 2 * nodes[codes[s][..d]] + 1 < TREE_SIZE
    ensures tree[2 * nodes[codes[s][..d]] + Bit(codes[s][d])] != 0 <==> q in nodes
    ensures q in nodes ==> tree[2 * nodes[codes[s][..d]] + Bit(codes[s][d])] == NodeRef(nodes[q])
  {
    assert Init(q) == codes[s][..d];
    FollowNode(codes, s, look, tree, nodes, q);
  }

  lemma BufferBit(bitBuf: nat, code: seq<bool>, n: nat, d: nat)
    requires d < |code| && d < n
    requires code <= ToBits(bitBuf, n) || ToBits(bitBuf, n) <= code
    ensures Shr(bitBuf, d) % 2 == Bit(code[d])
  {
    ToBitsAt(bitBuf, n, d);
  }

  lemma BufferPrefix(bitBuf: nat, code: seq<bool>, k: nat, n: nat)
    requires k <= n && k <= |code|
    requires code <= ToBits(bitBuf, n) || ToBits(bitBuf, n) <= code
    ensures ToBits(bitBuf, k) == code[..k]
  {
    ToBitsSplit(bitBuf, k, n);
  }

  lemma FirstStart(code: seq<bool>)
    ensures Starts(FromBits(code), code)
    ensures forall k: nat :: k < FromBits(code) ==> !Starts(k, code)
  {
    ToFromBits(code);
    forall k: nat | k < FromBits(code) ensures !Starts(k, code) {
      FromToBits(k, |code|);
      FromBitsBound(code);
      DivModUnique(k, Pow2(|code|), 0, k);
    }
  }

  lemma Apart(i: nat, k: nat, p: nat, q: int, q': int, r: nat)
    requires i == q * p + r && k == q' * p + r && i < k
    ensures k - i >= p
  {
    MulSub(q', q, p);
    if q' > q {
      MulAtLeast(q' - q, p);
    } else if q' < q {
      MulSub(q, q', p);
      MulAtLeast(q - q', p);
    }
  }

  lemma DivModOf(i: nat, p: nat) returns (q: nat, r: nat)
    requires p >= 1
    ensures i == q * p + r && r == i % p
  {
    q, r := i / p, i % p;
  }

  lemma StartsApart(i: nat, k: nat, code: seq<bool>)
    requires Starts(i, code) && Starts(k, code) && i < k
    ensures k >= i + Pow2(|code|)
  {
    FromToBits(i, |code|);
    FromToBits(k, |code|);
    var q, r := DivModOf(i, Pow2(|code|));
    var q', r' := DivModOf(k, Pow2(|code|));
    Apart(i, k, Pow2(|code|), q, q', r);
  }

  /** The buffer values that start with a code are 2^length apart. */
  lemma NoStartBetween(i: nat, code: seq<bool>)
    requires Starts(i, code)
    ensures forall k: nat :: i < k < i + Pow2(|code|) ==> !Starts(k, code)
  {
    forall k: nat | i < k < i + Pow2(|code|) && Starts(k, code) ensures false {
      StartsApart(i, k, code);
    }
  }

  lemma AddPow2(i: nat, n: nat)
    ensures ToBits(i + Pow2(n), n) == ToBits(i, n)
  {
    var q, r := DivModOf(i, Pow2(n));
    MulSub(q + 1, 1, Pow2(n));
    DivModUnique(i + Pow2(n), Pow2(n), q + 1, r);
    ToBitsMod(i, n);
    ToBitsMod(i + Pow2(n), n);
  }

  lemma CodeBit(code: seq<bool>, d: nat)
    requires 1 <= d < |code|
    ensures Shr(FromBits(code), d - 1) / 2 % 2 == Bit(code[d])
    ensures Shr(FromBits(code), d - 1) / 2 == Shr(FromBits(code), d)
  {
    ToFromBits(code);
    ToBitsAt(FromBits(code), |code|, d);
    ShrStep(FromBits(code), d - 1);
  }

  lemma LowTenBits(code: seq<bool>)
    requires |code| >= 10
    ensures FromBits(code) % 1024 == FromBits(code[..10])
  {
    ToFromBits(code);
    FromToBits(FromBits(code), 10);
    ToBitsSplit(FromBits(code), 10, |code|);
    Pow2Values();
  }
}
