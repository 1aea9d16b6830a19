/** m_dict with its mirrored start, the hash chains, and the search for matches. */
module Dictionaries {
  import opened Bits
  import opened Lz
  import opened HashChains

  const MIRROR: nat := 257
  const FAST_LOOKAHEAD: nat := 4096

  /** The byte at position k is in its slot, and in the mirror if that is one of the first. */
  ghost predicate SlotOk(dict: seq<Byte>, stream: seq<Byte>, k: int)
    requires |dict| == LZ_DICT_SIZE + MIRROR
  {
    0 <= k < |stream| ==>
      dict[k % LZ_DICT_SIZE] == stream[k] && (k % LZ_DICT_SIZE < MIRROR ==> dict[LZ_DICT_SIZE + k % LZ_DICT_SIZE] == stream[k])
  }

  /** The last 32768 bytes of the stream are in the dictionary. */
  ghost predicate Holds(dict: seq<Byte>, stream: seq<Byte>) {
    |dict| == LZ_DICT_SIZE + MIRROR && forall k :: |stream| - LZ_DICT_SIZE <= k < |stream| ==> SlotOk(dict, stream, k)
  }

  /** Up to 257 bytes can be read past the slot of a position without wrapping. */
  lemma ReadAhead(dict: seq<Byte>, stream: seq<Byte>, p: nat, i: nat)
    requires Holds(dict, stream) && i <= MIRROR && |stream| - LZ_DICT_SIZE <= p && p + i < |stream|
    ensures p % LZ_DICT_SIZE + i < |dict| && dict[p % LZ_DICT_SIZE + i] == stream[p + i]
  {
    assert SlotOk(dict, stream, p + i);
    if p % LZ_DICT_SIZE + i < LZ_DICT_SIZE {
      assert (p + i) % LZ_DICT_SIZE == p % LZ_DICT_SIZE + i;
    } else {
      assert (p + i) % LZ_DICT_SIZE == p % LZ_DICT_SIZE + i - LZ_DICT_SIZE;
    }
  }

  lemma ReadSlot(dict: seq<Byte>, stream: seq<Byte>, p: nat)
    requires Holds(dict, stream) && |stream| - LZ_DICT_SIZE <= p < |stream|
    ensures dict[p % LZ_DICT_SIZE] == stream[p]
  {
    assert SlotOk(dict, stream, p);
  }

  /** A byte goes to the next slot, over the byte that leaves the window. */
  lemma PutHolds(dict: seq<Byte>, stream: seq<Byte>, c: Byte, dict': seq<Byte>, dst: nat)
    requires Holds(dict, stream) && dst == |stream| % LZ_DICT_SIZE
    requires dict' == if dst < MIRROR then dict[dst := c][LZ_DICT_SIZE + dst := c] else dict[dst := c]
    ensures Holds(dict', stream + [c])
  {
    forall k | |stream| + 1 - LZ_DICT_SIZE <= k < |stream| + 1 ensures SlotOk(dict', stream + [c], k) {
      if 0 <= k < |stream| {
        assert SlotOk(dict, stream, k);
        OtherSlot(k, |stream|);
      }
    }
  }

  lemma OtherSlot(k: nat, n: nat)
    requires n - LZ_DICT_SIZE < k < n
    ensures k % LZ_DICT_SIZE != n % LZ_DICT_SIZE
  {
  }

  lemma ProbeSlot(pos: nat, probe: nat, dist: nat)
    requires dist == Dist16(pos, probe) <= LZ_DICT_SIZE && dist <= pos
    ensures probe % LZ_DICT_SIZE == (pos - dist) % LZ_DICT_SIZE
  {
    var q := (pos - probe) / 65536;
    assert pos - dist == probe + q * 65536;
    assert probe + q * 65536 == probe + (2 * q) * LZ_DICT_SIZE;
  }

  class Dictionary {
    const dict: array<Byte>
    const next: array<nat>
    const hash: array<nat>
    const maxProbes0: nat
    const maxProbes1: nat
    /** How far the lookahead is filled: 258 bytes, or 4096 for the fast parser. */
    const maxLookahead: nat
    var lookaheadPos: nat
    var lookaheadSize: nat
    var dictSize: nat
    /** All bytes taken in so far, and how many they were at the last full flush. */
    ghost var stream: seq<Byte>
    ghost var reset: nat

    ghost predicate Shape() {
      && dict.Length == LZ_DICT_SIZE + MIRROR && next.Length == LZ_DICT_SIZE && hash.Length == HASH_SIZE && next != hash
      && maxProbes0 >= 1 && maxProbes1 >= 1 && (maxLookahead == MAX_MATCH_LEN || maxLookahead == FAST_LOOKAHEAD)
    }

    ghost predicate Filled()
      reads this, dict
    {
      && Holds(dict[..], stream) && |stream| == lookaheadPos + lookaheadSize && dictSize <= lookaheadPos
    }

    /** The dictionary reaches back to the last full flush, unless the lookahead leaves no more room for it. */
    ghost predicate Window()
      reads this`reset, this`lookaheadPos, this`dictSize
    {
      reset + dictSize <= lookaheadPos && (reset + dictSize == lookaheadPos || dictSize >= LZ_DICT_SIZE - maxLookahead)
    }

    /** In addition, what counts as dictionary and the lookahead fit the window together. */
    ghost predicate Valid()
      reads this, dict
    {
      Shape() && Filled() && Window() && dictSize + lookaheadSize <= LZ_DICT_SIZE && lookaheadSize <= maxLookahead
    }

    /** What a search sees. */
    ghost function Seen(): View
      reads this`stream, this`reset, this`lookaheadPos, this`dictSize
    {
      View(stream, reset, lookaheadPos, dictSize)
    }

    /** The hash chains, which tdefl_compress_fast does not keep. */
    ghost predicate Chained()
      reads this`stream, this`reset, next, hash
    {
      ChainsOk(stream, reset, hash[..], next[..])
    }

    constructor (maxProbes0: nat, maxProbes1: nat, fast: bool)
      requires maxProbes0 >= 1 && maxProbes1 >= 1
      ensures maxLookahead == (if fast then FAST_LOOKAHEAD else MAX_MATCH_LEN)
      ensures Valid() && Chained() && stream == [] && lookaheadPos == 0 && reset == 0
      ensures this.maxProbes0 == maxProbes0 && this.maxProbes1 == maxProbes1 && fresh(dict) && fresh(next) && fresh(hash)
    {
      dict := new Byte[LZ_DICT_SIZE + MIRROR];
      next := new nat[LZ_DICT_SIZE](_ => 0);
      hash := new nat[HASH_SIZE](_ => 0);
      this.maxProbes0, this.maxProbes1 := maxProbes0, maxProbes1;
      maxLookahead := if fast then FAST_LOOKAHEAD else MAX_MATCH_LEN;
      lookaheadPos, lookaheadSize, dictSize, stream, reset := 0, 0, 0, [], 0;
      new;
      NoChains(stream, hash[..], next[..]);
    }

    // ---- taking bytes in ----

    method PutByte(c: Byte)
      requires Shape() && Filled()
      modifies this`lookaheadSize, this`stream, dict
      ensures Filled() && stream == old(stream) + [c] && lookaheadSize == old(lookaheadSize) + 1
    {
      var dst := (lookaheadPos + lookaheadSize) % LZ_DICT_SIZE;
      ghost var before := dict[..];
      dict[dst] := c;
      if dst < MIRROR {
        dict[LZ_DICT_SIZE + dst] := c;
      }
      ghost var after := if dst < MIRROR then before[dst := c][LZ_DICT_SIZE + dst := c] else before[dst := c];
      assert dict[..] == after;
      PutHolds(before, stream, c, dict[..], dst);
      lookaheadSize, stream := lookaheadSize + 1, stream + [c];
    }

    /** The position two bytes back is put at the head of the chain of its hash. */
    method Insert(h: nat, insPos: nat, ghost before: seq<Byte>, ghost c: Byte)
      requires Shape() && stream == before + [c] && ChainsOk(before, reset, hash[..], next[..])
      requires insPos == |before| - 2 >= reset && h == Hash3(stream, insPos)
      modifies next, hash
      ensures Chained()
    {
      hide Hash3;
      Hashed(before, c, reset, hash[..], next[..], h, insPos);
      ghost var hash0: seq<nat>, next0: seq<nat> := hash[..], next[..];
      next[insPos % LZ_DICT_SIZE] := hash[h];
      hash[h] := insPos % 65536;
      assert hash[..] == hash0[h := insPos % 65536] && next[..] == next0[insPos % LZ_DICT_SIZE := hash0[h]];
    }

    /** The window is updated until the lookahead is full or the input is used up. */
    method TakeIn(src: seq<Byte>) returns (taken: nat)
      requires Valid() && Chained() && maxLookahead == MAX_MATCH_LEN
      modifies this`lookaheadSize, this`dictSize, this`stream, dict, next, hash
      ensures Valid() && Chained() && taken <= |src| && stream == old(stream) + src[..taken]
      ensures lookaheadSize == old(lookaheadSize) + taken && lookaheadSize <= MAX_MATCH_LEN
      ensures taken == |src| || lookaheadSize == MAX_MATCH_LEN
      ensures dictSize == if old(dictSize) + lookaheadSize <= LZ_DICT_SIZE then old(dictSize) else LZ_DICT_SIZE - lookaheadSize
    {
      hide ChainsOk, Holds;
      if lookaheadSize + dictSize >= MIN_MATCH_LEN - 1 {
        taken := TakeInHashed(src);
      } else {
        taken := TakeInFirst(src);
      }
      if LZ_DICT_SIZE - lookaheadSize < dictSize {
        dictSize := LZ_DICT_SIZE - lookaheadSize;
      }
    }

    /** A hash is kept that the next byte is shifted into. */
    method TakeInHashed(src: seq<Byte>) returns (taken: nat)
      requires Valid() && Chained() && maxLookahead == MAX_MATCH_LEN && lookaheadSize + dictSize >= MIN_MATCH_LEN - 1
      modifies this`lookaheadSize, this`stream, dict, next, hash
      ensures Filled() && Chained() && taken <= |src| && stream == old(stream) + src[..taken]
      ensures lookaheadSize == old(lookaheadSize) + taken && lookaheadSize <= MAX_MATCH_LEN
      ensures taken == |src| || lookaheadSize == MAX_MATCH_LEN
    {
      hide ChainsOk, Holds, Xor, Mix;
      var insPos: nat := lookaheadPos + lookaheadSize - 2;
      ReadSlot(dict[..], stream, insPos);
      ReadSlot(dict[..], stream, insPos + 1);
      var h: nat := Xor(dict[insPos % LZ_DICT_SIZE] as nat * 32, dict[(insPos + 1) % LZ_DICT_SIZE]);
      var n: nat := if |src| < MAX_MATCH_LEN - lookaheadSize then |src| else MAX_MATCH_LEN - lookaheadSize;
      taken := 0;
      while taken < n
        invariant taken <= n && Filled() && Chained() && stream == old(stream) + src[..taken]
        invariant lookaheadSize == old(lookaheadSize) + taken && reset <= insPos == |stream| - 2
        invariant h == Xor(stream[insPos] as nat * 32, stream[insPos + 1]) || (insPos > 0 && h == Hash3(stream, insPos - 1))
      {
        ghost var before := stream;
        PutByte(src[taken]);
        NextHash(if insPos > 0 then stream[insPos - 1] else 0, stream[insPos], stream[insPos + 1], src[taken], h);
        h := Xor(h * 32, src[taken]) % HASH_SIZE;
        Insert(h, insPos, before, src[taken]);
        insPos := insPos + 1;
        taken := taken + 1;
        assert src[..taken] == src[..taken - 1] + [src[taken - 1]];
      }
    }

    /** At the start of the stream, or after a full flush, a position is hashed when three bytes are known. */
    method TakeInFirst(src: seq<Byte>) returns (taken: nat)
      requires Valid() && Chained() && maxLookahead == MAX_MATCH_LEN && lookaheadSize + dictSize < MIN_MATCH_LEN - 1
      modifies this`lookaheadSize, this`stream, dict, next, hash
      ensures Filled() && Chained() && taken <= |src| && stream == old(stream) + src[..taken]
      ensures lookaheadSize == old(lookaheadSize) + taken && lookaheadSize <= MAX_MATCH_LEN
      ensures taken == |src| || lookaheadSize == MAX_MATCH_LEN
    {
      hide ChainsOk, Holds, Xor;
      taken := 0;
      while taken < |src| && lookaheadSize < MAX_MATCH_LEN
        invariant taken <= |src| && Filled() && Chained() && stream == old(stream) + src[..taken]
        invariant lookaheadSize == old(lookaheadSize) + taken <= MAX_MATCH_LEN
      {
        var c := src[taken];
        ghost var before := stream;
        PutByte(c);
        if lookaheadSize + dictSize >= MIN_MATCH_LEN {
          var insPos := lookaheadPos + (lookaheadSize - 1) - 2;
          ReadSlot(dict[..], stream, insPos);
          ReadSlot(dict[..], stream, insPos + 1);
          var h := Xor(Xor(dict[insPos % LZ_DICT_SIZE] as nat * 1024, dict[(insPos + 1) % LZ_DICT_SIZE] as nat * 32), c) % HASH_SIZE;
          Insert(h, insPos, before, c);
        } else {
          NotHashed(before, c, reset, hash[..], next[..]);
        }
        taken := taken + 1;
        assert src[..taken] == src[..taken - 1] + [src[taken - 1]];
      }
    }

    /** The lookahead moves forward: its first bytes become part of the dictionary. */
    method Advance(n: nat)
      requires Valid() && n <= lookaheadSize
      modifies this`lookaheadPos, this`lookaheadSize, this`dictSize
      ensures Valid() && lookaheadPos == old(lookaheadPos) + n && lookaheadSize == old(lookaheadSize) - n
      ensures dictSize == if old(dictSize) + n < LZ_DICT_SIZE then old(dictSize) + n else LZ_DICT_SIZE
    {
      hide Holds;
      lookaheadPos, lookaheadSize := lookaheadPos + n, lookaheadSize - n;
      dictSize := if dictSize + n < LZ_DICT_SIZE then dictSize + n else LZ_DICT_SIZE;
    }

    /** What a full flush does: no match will reach back to what has been sent. */
    method Forget()
      requires Valid() && lookaheadSize == 0
      modifies this`dictSize, this`reset, next, hash
      ensures Valid() && Chained() && dictSize == 0 && reset == |stream|
    {
      hide Holds;
      for i := 0 to HASH_SIZE
        invariant forall j :: 0 <= j < i ==> hash[j] == 0
      {
        hash[i] := 0;
      }
      for i := 0 to LZ_DICT_SIZE
        invariant forall j :: 0 <= j < HASH_SIZE ==> hash[j] == 0
      {
        next[i] := 0;
      }
      dictSize, reset := 0, lookaheadPos;
      NoChains(stream, hash[..], next[..]);
    }

    /** What the parser looks for with TDEFL_RLE_MATCHES: how often the last byte is repeated, if it is at least three times. */
    method FindRun() returns (dist: nat, len: nat)
      requires Valid() && dictSize > 0 && maxLookahead == MAX_MATCH_LEN
      ensures (dist == 0 && len == 0)
           || (dist == 1 && MIN_MATCH_LEN <= len <= lookaheadSize && IsMatch(stream, lookaheadPos, dist, len))
      ensures dist == 1 <==> IsMatch(stream, lookaheadPos, 1, MIN_MATCH_LEN)
      ensures !IsMatch(stream, lookaheadPos, 1, len + 1) || len == 0
    {
      hide Holds;
      var pos: nat := lookaheadPos % LZ_DICT_SIZE;
      var c := dict[(lookaheadPos - 1) % LZ_DICT_SIZE];
      ReadAhead(dict[..], stream, lookaheadPos - 1, 0);
      len := 0;
      while len < lookaheadSize && dict[pos + len] == c
        invariant len <= lookaheadSize && forall k :: lookaheadPos - 1 <= k < lookaheadPos + len ==> stream[k] == c
      {
        ReadAhead(dict[..], stream, lookaheadPos, len);
        len := len + 1;
      }
      RunIs(dict[..], c, len);
      if len < MIN_MATCH_LEN {
        len, dist := 0, 0;
      } else {
        dist := 1;
      }
    }

    /** The run ends where the lookahead ends or another byte comes. */
    lemma RunIs(bytes: seq<Byte>, c: Byte, len: nat)
      requires Valid() && dictSize > 0 && bytes == dict[..] && len <= lookaheadSize <= MAX_MATCH_LEN
      requires forall k :: lookaheadPos - 1 <= k < lookaheadPos + len ==> stream[k] == c
      requires len == lookaheadSize || dict[lookaheadPos % LZ_DICT_SIZE + len] != c
      ensures forall n: nat :: IsMatch(stream, lookaheadPos, 1, n) <==> n <= len
    {
      hide Holds;
      forall n: nat ensures IsMatch(stream, lookaheadPos, 1, n) <==> n <= len {
        if n <= len {
          forall k | lookaheadPos <= k < lookaheadPos + n ensures Repeats(stream, k, 1) {
            assert stream[k] == c && stream[k - 1] == c;
          }
        } else if n <= lookaheadSize {
          ReadAhead(bytes, stream, lookaheadPos, len);
          assert stream[lookaheadPos + len - 1] == c;
          assert !Repeats(stream, lookaheadPos + len, 1);
        }
      }
    }

    // ---- tdefl_find_match ----

    /** What the search may return: what it started with, or a longer match within the dictionary and the lookahead. */
    ghost predicate Found(dist0: nat, len0: nat, dist: nat, len: nat)
      reads this
    {
      || (dist == dist0 && len == len0)
      || (len > len0 && 1 <= dist <= dictSize && len <= lookaheadSize && IsMatch(stream, lookaheadPos, dist, len))
    }

    /** Where a search is on its chain: at the k-th position, none up to which has a longer match than len. */
    ghost predicate At(probePos: nat, k: nat, len: nat)
      reads this
    {
      && Seen().Ok() && 2 <= len < lookaheadSize && lookaheadPos + lookaheadSize == |stream|
      && Reach(Seen(), k) >= 0 && probePos == Reach(Seen(), k) % LZ_DICT_SIZE && NoneBetter(Seen(), k, len)
    }

    /** The two bytes that a longer match needs at its end. */
    predicate LastBytes(len: nat, c0: Byte, c1: Byte)
      requires Shape() && 1 <= len <= MIRROR
      reads this, dict
    {
      c0 == dict[lookaheadPos % LZ_DICT_SIZE + len] && c1 == dict[lookaheadPos % LZ_DICT_SIZE + len - 1]
    }

    lemma NoneSoFar(probePos: nat, k: nat, len: nat)
      requires At(probePos, k, len)
      ensures Seen().Ok() && lookaheadPos + 2 < |stream| && NoneBetter(Seen(), k, len)
    {
      hide NoneBetter, Reach;
    }

    /** The next position on the chain; dist is 0 if it is the current one, 65536 bytes back. */
    method Probe(probePos: nat, matchLen: nat, c0: Byte, c1: Byte, ghost k: nat)
      returns (stop: bool, hit: bool, probePos': nat, dist: nat)
      requires Valid() && Chained() && At(probePos, k, matchLen) && matchLen <= MIRROR && LastBytes(matchLen, c0, c1)
      ensures !stop ==> dist <= dictSize && probePos' == (lookaheadPos - dist) % LZ_DICT_SIZE
      ensures if stop || dist == 0 then Reach(Seen(), k + 1) < 0 else Reach(Seen(), k + 1) == lookaheadPos - dist
      ensures !stop && !hit ==> At(probePos', k + 1, matchLen) && NoneBetter(Seen(), k + 1, matchLen)
    {
      hide Holds, IsMatch, NoneBetter, Mix, Earlier;
      NextEntry(k);
      var nextProbePos := next[probePos];
      dist := Dist16(lookaheadPos, nextProbePos);
      stop, hit, probePos' := nextProbePos == 0 || dist > dictSize, false, probePos;
      if !stop {
        ProbeSlot(lookaheadPos, nextProbePos, dist);
        probePos' := nextProbePos % LZ_DICT_SIZE;
        hit := dict[probePos' + matchLen] == c0 && dict[probePos' + matchLen - 1] == c1;
        if !hit {
          Misses(probePos', dist, matchLen, k);
        }
      }
    }

    /** The entry of a position on the chain leads to the next one. */
    lemma NextEntry(k: nat)
      requires Valid() && Chained() && lookaheadSize >= 3 && Reach(Seen(), k) >= 0
      ensures var e := next[Reach(Seen(), k) % LZ_DICT_SIZE];
        Reach(Seen(), k + 1) ==
          if e == 0 || Dist16(lookaheadPos, e) == 0 || Dist16(lookaheadPos, e) > dictSize then -1
          else lookaheadPos - Dist16(lookaheadPos, e)
    {
      hide Holds, Mix, Earlier;
      var p := Reach(Seen(), k);
      assert NextOk(stream, reset, next[..], p);
    }

    /** A position where one of the last bytes differs has no longer match. */
    lemma Misses(probePos: nat, dist: nat, len: nat, k: nat)
      requires Valid() && 2 <= len < lookaheadSize && len <= MIRROR && dist <= dictSize
      requires probePos == (lookaheadPos - dist) % LZ_DICT_SIZE && NoneBetter(Seen(), k, len)
      requires Reach(Seen(), k + 1) == if dist == 0 then -1 else lookaheadPos - dist
      requires dict[probePos + len] != dict[lookaheadPos % LZ_DICT_SIZE + len]
            || dict[probePos + len - 1] != dict[lookaheadPos % LZ_DICT_SIZE + len - 1]
      ensures At(probePos, k + 1, len)
    {
      hide Holds, Reach;
      var i := if dict[probePos + len] != dict[lookaheadPos % LZ_DICT_SIZE + len] then len else len - 1;
      Differs(dist, probePos, len + 1, i);
      NoneMore(Seen(), k, len);
    }

    /** Where two bytes differ there is no match. */
    lemma Differs(dist: nat, probePos: nat, n: nat, i: nat)
      requires Valid() && dist <= dictSize && probePos == (lookaheadPos - dist) % LZ_DICT_SIZE && i < n && i <= MIRROR
      requires i < lookaheadSize && dict[probePos + i] != dict[lookaheadPos % LZ_DICT_SIZE + i]
      ensures dist > 0 && !IsMatch(stream, lookaheadPos, dist, n)
    {
      hide Holds;
      ReadAhead(dict[..], stream, lookaheadPos, i);
      ReadAhead(dict[..], stream, lookaheadPos - dist, i);
      assert !Repeats(stream, lookaheadPos + i, dist);
    }

    /** The next position on the chain at which a longer match may start. */
    method NextCandidate(probePos: nat, probesLeft: nat, matchLen: nat, c0: Byte, c1: Byte, ghost k: nat)
      returns (found: bool, probePos': nat, dist: nat, probesLeft': nat, ghost k': nat)
      requires Valid() && Chained() && At(probePos, k, matchLen) && matchLen <= MIRROR && LastBytes(matchLen, c0, c1)
      requires probesLeft >= 1
      ensures found ==> dist <= dictSize && probePos' == (lookaheadPos - dist) % LZ_DICT_SIZE && 1 <= probesLeft' < probesLeft
      ensures found ==> k' - k >= probesLeft - probesLeft' && NoneBetter(Seen(), k' - 1, matchLen)
      ensures found ==> Reach(Seen(), k') == if dist == 0 then -1 else lookaheadPos - dist
      ensures !found ==> NoneBetter(Seen(), k', matchLen) && (Reach(Seen(), k' + 1) < 0 || k' - k >= probesLeft - 1)
    {
      hide Valid, At, NoneBetter, Reach, ChainsOk, LastBytes;
      found, probePos', dist, probesLeft', k' := false, probePos, 0, probesLeft, k;
      NoneSoFar(probePos, k, matchLen);
      while !found
        invariant 1 <= probesLeft' <= probesLeft && k' - k >= probesLeft - probesLeft'
        invariant if found then
                    dist <= dictSize && probePos' == (lookaheadPos - dist) % LZ_DICT_SIZE && probesLeft' < probesLeft
                    && k' >= 1 && NoneBetter(Seen(), k' - 1, matchLen)
                    && Reach(Seen(), k') == if dist == 0 then -1 else lookaheadPos - dist
                  else At(probePos', k', matchLen) && NoneBetter(Seen(), k', matchLen)
        decreases if found then 0 else 1, probesLeft'
      {
        probesLeft' := probesLeft' - 1;
        if probesLeft' == 0 {
          return;
        }
        var stop;
        stop, found, probePos', dist := Probe(probePos', matchLen, c0, c1, k');
        if !stop && !found {
          k' := k' + 1;
          stop, found, probePos', dist := Probe(probePos', matchLen, c0, c1, k');
        }
        if !stop && !found {
          k' := k' + 1;
          stop, found, probePos', dist := Probe(probePos', matchLen, c0, c1, k');
        }
        if stop {
          found := false;
          return;
        }
        k' := k' + 1;
      }
    }

    predicate SameByte(p: nat, q: nat, i: int)
      reads dict
    {
      0 <= i && p + i < dict.Length && q + i < dict.Length && dict[p + i] == dict[q + i]
    }

    /** The bytes of the lookahead are those the dictionary has dist bytes back, as far as both have been compared. */
    lemma Compared(probePos: nat, dist: nat, len: nat)
      requires Valid() && 1 <= dist <= dictSize && probePos == (lookaheadPos - dist) % LZ_DICT_SIZE && len <= lookaheadSize
      requires len <= MAX_MATCH_LEN
      requires forall i :: 0 <= i < len ==> SameByte(lookaheadPos % LZ_DICT_SIZE, probePos, i)
      ensures IsMatch(stream, lookaheadPos, dist, len)
    {
      hide Holds;
      forall k | lookaheadPos <= k < lookaheadPos + len ensures Repeats(stream, k, dist) {
        assert SameByte(lookaheadPos % LZ_DICT_SIZE, probePos, k - lookaheadPos);
        ReadAhead(dict[..], stream, lookaheadPos, k - lookaheadPos);
        ReadAhead(dict[..], stream, lookaheadPos - dist, k - lookaheadPos);
      }
    }

    /** How many positions a search looks at, if there are so many. */
    function Probes(matchLen: nat): nat { if matchLen >= 32 then maxProbes1 else maxProbes0 }

    /** The position has been compared: the bytes differ behind n of them, if the lookahead does not end there. */
    lemma Considered(probePos: nat, dist: nat, k: nat, n: nat, len0: nat, len: nat)
      requires Valid() && lookaheadSize >= 3 && 1 <= dist <= dictSize && probePos == (lookaheadPos - dist) % LZ_DICT_SIZE
      requires k >= 1 && Reach(Seen(), k) == lookaheadPos - dist && NoneBetter(Seen(), k - 1, len0) && len0 <= len && n <= len
      requires n >= lookaheadSize || (n <= MIRROR && dict[probePos + n] != dict[lookaheadPos % LZ_DICT_SIZE + n])
      ensures NoneBetter(Seen(), k, len)
    {
      hide Holds, Reach;
      NoneLonger(Seen(), k - 1, len0, len);
      if n < lookaheadSize && len < lookaheadSize {
        Differs(dist, probePos, len + 1, n);
      }
      NoneMore(Seen(), k - 1, len);
    }

    /** The search is over, because the chain is or because enough positions have been looked at. */
    lemma Over(k: nat, n: nat, len: nat)
      requires Valid() && lookaheadSize >= 3 && NoneBetter(Seen(), k, len) && (Reach(Seen(), k + 1) < 0 || k >= n)
      ensures NoneBetter(Seen(), n, len)
    {
      hide Holds, Reach, LongerAt;
      if Reach(Seen(), k + 1) < 0 {
        NoneAfter(Seen(), k, n, len);
      }
    }

    lemma Begin(len: nat)
      requires Valid() && 2 <= len < lookaheadSize
      ensures At(lookaheadPos % LZ_DICT_SIZE, 0, len)
    {
      hide Holds;
    }

    /** Byte by byte. None of the positions looked at has a longer match than the one returned. */
    method FindMatchBytes(matchDist: nat, matchLen: nat) returns (dist': nat, len': nat)
      requires Valid() && Chained() && 2 <= matchLen <= MIRROR && maxLookahead == MAX_MATCH_LEN
      ensures Found(matchDist, matchLen, dist', len')
      ensures lookaheadSize >= 3 ==> NoneBetter(Seen(), Probes(matchLen) - 1, len')
    {
      hide Holds, IsMatch, Found, NoneBetter, Reach, ChainsOk;
      dist', len' := matchDist, matchLen;
      NothingFound(matchDist, matchLen);
      var pos: nat := lookaheadPos % LZ_DICT_SIZE;
      var probePos: nat, probesLeft: nat := pos, if matchLen >= 32 then maxProbes1 else maxProbes0;
      var c0, c1 := dict[pos + len'], dict[pos + len' - 1];
      if lookaheadSize <= len' {
        AtEnd(Probes(matchLen) - 1, len');
        return;
      }
      ghost var k: nat := 0;
      Begin(len');
      while true
        invariant At(probePos, k, len') && probesLeft >= 1 && Found(matchDist, matchLen, dist', len') && matchLen <= len'
        invariant k >= Probes(matchLen) - probesLeft && LastBytes(len', c0, c1)
        decreases probesLeft
      {
        var found, dist: nat;
        found, probePos, dist, probesLeft, k := NextCandidate(probePos, probesLeft, len', c0, c1, k);
        if !found || dist == 0 {
          Over(if found then k - 1 else k, Probes(matchLen) - 1, len');
          return;
        }
        var n := TryBytes(pos, probePos, dist, len', k);
        if n > len' {
          LongerFound(matchDist, matchLen, dist, n);
          dist', len' := dist, n;
          if len' == lookaheadSize {
            AtEnd(Probes(matchLen) - 1, len');
            return;
          }
          c0, c1 := dict[pos + len'], dict[pos + len' - 1];
        }
      }
    }

    /** How many bytes agree at a position, up to the end of the lookahead. */
    method TryBytes(pos: nat, probePos: nat, dist: nat, len: nat, ghost k: nat) returns (n: nat)
      requires Valid() && 2 <= len < lookaheadSize <= MAX_MATCH_LEN && pos == lookaheadPos % LZ_DICT_SIZE
      requires 1 <= dist <= dictSize && probePos == (lookaheadPos - dist) % LZ_DICT_SIZE
      requires k >= 1 && Reach(Seen(), k) == lookaheadPos - dist && NoneBetter(Seen(), k - 1, len)
      ensures n <= lookaheadSize && NoneBetter(Seen(), k, if n > len then n else len)
      ensures n > len ==> IsMatch(stream, lookaheadPos, dist, n)
    {
      hide Holds, IsMatch, NoneBetter, Reach;
      n := CompareBytes(pos, probePos, lookaheadSize);
      Considered(probePos, dist, k, n, len, if n > len then n else len);
      Compared(probePos, dist, n);
    }

    lemma AtEnd(n: nat, len: nat)
      requires Valid() && len >= lookaheadSize
      ensures lookaheadSize >= 3 ==> NoneBetter(Seen(), n, len)
    {
      hide Holds, Reach;
      if lookaheadSize >= 3 {
        FullLength(Seen(), n, len);
      }
    }

    method CompareBytes(p: nat, q: nat, max: nat) returns (n: nat)
      requires Shape() && p < LZ_DICT_SIZE && q < LZ_DICT_SIZE && max <= MAX_MATCH_LEN
      ensures n <= max && forall i :: 0 <= i < n ==> SameByte(p, q, i)
      ensures n == max || dict[p + n] != dict[q + n]
    {
      n := 0;
      while n < max && dict[p + n] == dict[q + n]
        invariant n <= max && forall i :: 0 <= i < n ==> SameByte(p, q, i)
      {
        n := n + 1;
      }
    }

    lemma NothingFound(dist: nat, len: nat)
      ensures Found(dist, len, dist, len)
    {
    }

    lemma LongerFound(dist0: nat, len0: nat, dist: nat, len: nat)
      requires len > len0 && 1 <= dist <= dictSize && len <= lookaheadSize && IsMatch(stream, lookaheadPos, dist, len)
      ensures Found(dist0, len0, dist, len)
    {
      hide IsMatch;
    }

    // ---- two bytes at a time ----

    predicate SameWord(p: nat, q: nat)
      requires Shape() && p + 1 < dict.Length && q + 1 < dict.Length
      reads dict
    {
      dict[p] == dict[q] && dict[p + 1] == dict[q + 1]
    }

    predicate SameBytes(p: nat, q: nat, n: nat)
      reads dict
    {
      forall i :: 0 <= i < n ==> SameByte(p, q, i)
    }

    /** The number of equal bytes, counted in words: 258 if 129 words are equal. */
    method CompareWords(p: nat, q: nat) returns (all: bool, n: nat)
      requires Shape() && p < LZ_DICT_SIZE && q < LZ_DICT_SIZE && SameWord(p, q)
      ensures if all then SameBytes(p, q, MAX_MATCH_LEN) else n <= MIRROR && dict[p + n] != dict[q + n] && SameBytes(p, q, n)
      ensures p == q ==> all
    {
      var w, probeLen := 0, 32;
      all := true;
      while all && probeLen > 0
        invariant 0 <= probeLen <= 32 && w <= 128 && if all then w == 4 * (32 - probeLen) else w >= 1
        invariant SameBytes(p, q, if all then 2 * w + 2 else 2 * w) && (all || !SameWord(p + 2 * w, q + 2 * w))
        invariant p == q ==> all
        decreases probeLen, if all then 1 else 0
      {
        all, w := FourWords(p, q, w);
        if all {
          probeLen := probeLen - 1;
        }
      }
      n := 2 * w + (if dict[p + 2 * w] == dict[q + 2 * w] then 1 else 0);
    }

    method FourWords(p: nat, q: nat, w: nat) returns (all: bool, w': nat)
      requires Shape() && p < LZ_DICT_SIZE && q < LZ_DICT_SIZE && w <= 124 && SameBytes(p, q, 2 * w + 2)
      ensures w < w' <= w + 4 && if all then w' == w + 4 && SameBytes(p, q, 2 * w' + 2)
                                 else SameBytes(p, q, 2 * w') && !SameWord(p + 2 * w', q + 2 * w')
      ensures p == q ==> all
    {
      all, w' := true, w;
      for i := 0 to 4
        invariant w' <= w + i && if all then w' == w + i && SameBytes(p, q, 2 * w' + 2)
                                 else w < w' && SameBytes(p, q, 2 * w') && !SameWord(p + 2 * w', q + 2 * w')
        invariant p == q ==> all
      {
        if all {
          w' := w' + 1;
          all := SameWord(p + 2 * w', q + 2 * w');
        }
      }
    }

    /** Two bytes at a time. */
    method FindMatchWords(matchDist: nat, matchLen: nat) returns (dist': nat, len': nat)
      requires Valid() && Chained() && 2 <= matchLen <= MIRROR && maxLookahead == MAX_MATCH_LEN
      ensures Found(matchDist, matchLen, dist', len')
      ensures lookaheadSize >= 3 ==> NoneBetter(Seen(), Probes(matchLen) - 1, len')
    {
      hide Holds, IsMatch, Found, NoneBetter, Reach, ChainsOk;
      dist', len' := matchDist, matchLen;
      NothingFound(matchDist, matchLen);
      var pos: nat := lookaheadPos % LZ_DICT_SIZE;
      var probePos: nat, probesLeft: nat := pos, if matchLen >= 32 then maxProbes1 else maxProbes0;
      var c0, c1 := dict[pos + len'], dict[pos + len' - 1];
      if lookaheadSize <= len' {
        AtEnd(Probes(matchLen) - 1, len');
        return;
      }
      ghost var k: nat := 0;
      Begin(len');
      while true
        invariant At(probePos, k, len') && probesLeft >= 1 && Found(matchDist, matchLen, dist', len') && matchLen <= len'
        invariant k >= Probes(matchLen) - probesLeft && LastBytes(len', c0, c1)
        decreases probesLeft
      {
        var found, dist: nat;
        found, probePos, dist, probesLeft, k := NextCandidate(probePos, probesLeft, len', c0, c1, k);
        if !found || dist == 0 {
          Over(if found then k - 1 else k, Probes(matchLen) - 1, len');
          return;
        }
        var n := TryWords(pos, probePos, dist, len', k);
        if n > len' {
          LongerFound(matchDist, matchLen, dist, n);
          dist', len' := dist, n;
          if len' == lookaheadSize {
            AtEnd(Probes(matchLen) - 1, len');
            return;
          }
          c0, c1 := dict[pos + len'], dict[pos + len' - 1];
        }
      }
    }

    /** The same, compared in words. */
    method TryWords(pos: nat, probePos: nat, dist: nat, len: nat, ghost k: nat) returns (n: nat)
      requires Valid() && 2 <= len < lookaheadSize <= MAX_MATCH_LEN && pos == lookaheadPos % LZ_DICT_SIZE
      requires 1 <= dist <= dictSize && probePos == (lookaheadPos - dist) % LZ_DICT_SIZE
      requires k >= 1 && Reach(Seen(), k) == lookaheadPos - dist && NoneBetter(Seen(), k - 1, len)
      ensures n <= lookaheadSize && NoneBetter(Seen(), k, if n > len then n else len)
      ensures n > len ==> IsMatch(stream, lookaheadPos, dist, n)
    {
      hide Holds, IsMatch, NoneBetter, Reach;
      if SameWord(probePos, pos) {
        var all, probeLen := CompareWords(pos, probePos);
        n := if all || probeLen > lookaheadSize then lookaheadSize else probeLen;
        Considered(probePos, dist, k, n, len, if n > len then n else len);
        Compared(probePos, dist, n);
      } else {
        n := 0;
        Considered(probePos, dist, k, if dict[probePos] != dict[pos] then 0 else 1, len, len);
      }
    }

    // ---- tdefl_compress_fast ----

    /** memcpy of the start of src to the slots from dst on, and to the mirror of those that are mirrored. */
    method CopyChunk(src: seq<Byte>, dst: nat)
      requires Shape() && dst == |stream| % LZ_DICT_SIZE && dst + |src| <= LZ_DICT_SIZE && Holds(dict[..], stream)
      modifies dict, this`stream
      ensures stream == old(stream) + src && Holds(dict[..], stream)
    {
      ghost var before := dict[..];
      for i := 0 to |src|
        invariant stream == old(stream)
        invariant forall j :: 0 <= j < |before| ==> dict[j] == if dst <= j < dst + i then src[j - dst] else before[j]
      {
        dict[dst + i] := src[i];
      }
      if dst < MIRROR {
        var n := if |src| < MIRROR - dst then |src| else MIRROR - dst;
        for i := 0 to n
          invariant stream == old(stream)
          invariant forall j :: 0 <= j < LZ_DICT_SIZE ==> dict[j] == if dst <= j < dst + |src| then src[j - dst] else before[j]
          invariant forall j :: LZ_DICT_SIZE <= j < |before| ==>
            dict[j] == if LZ_DICT_SIZE + dst <= j < LZ_DICT_SIZE + dst + i then src[j - LZ_DICT_SIZE - dst] else before[j]
        {
          dict[LZ_DICT_SIZE + dst + i] := src[i];
        }
      }
      ChunkHolds(before, stream, src, dst, dict[..]);
      stream := stream + src;
    }

    /** The lookahead is filled block by block. */
    method TakeBlock(src: seq<Byte>) returns (taken: nat)
      requires Valid() && maxLookahead == FAST_LOOKAHEAD
      modifies this`lookaheadSize, this`dictSize, this`stream, dict
      ensures Valid() && taken <= |src| && stream == old(stream) + src[..taken]
      ensures lookaheadSize == old(lookaheadSize) + taken && (taken == |src| || lookaheadSize == FAST_LOOKAHEAD)
      ensures dictSize == if old(dictSize) + lookaheadSize <= LZ_DICT_SIZE then old(dictSize) else LZ_DICT_SIZE - lookaheadSize
    {
      hide Holds;
      taken := if |src| < FAST_LOOKAHEAD - lookaheadSize then |src| else FAST_LOOKAHEAD - lookaheadSize;
      CopyBlocks(src[..taken], (lookaheadPos + lookaheadSize) % LZ_DICT_SIZE);
      lookaheadSize := lookaheadSize + taken;
      if LZ_DICT_SIZE - lookaheadSize < dictSize {
        dictSize := LZ_DICT_SIZE - lookaheadSize;
      }
    }

    method CopyBlocks(src: seq<Byte>, start: nat)
      requires Shape() && start == |stream| % LZ_DICT_SIZE && Holds(dict[..], stream)
      modifies dict, this`stream
      ensures stream == old(stream) + src && Holds(dict[..], stream)
    {
      hide Holds;
      var dst, done := start, 0;
      assert src[..0] == [];
      while done < |src|
        invariant done <= |src| && Holds(dict[..], stream) && stream == old(stream) + src[..done] && dst == |stream| % LZ_DICT_SIZE
      {
        var n: nat := if LZ_DICT_SIZE - dst < |src| - done then LZ_DICT_SIZE - dst else |src| - done;
        assert src[..done] + src[done..done + n] == src[..done + n];
        SlotAfter(|stream|, dst, n);
        CopyChunk(src[done..done + n], dst);
        dst, done := (dst + n) % LZ_DICT_SIZE, done + n;
      }
      assert src[..|src|] == src;
    }

    /** Three bytes as a number. */
    method Trigram(p: nat) returns (v: nat)
      requires Shape() && p < LZ_DICT_SIZE
      ensures v == dict[p] as nat + 256 * dict[p + 1] as nat + 65536 * dict[p + 2] as nat
    {
      v := dict[p] as nat + 256 * dict[p + 1] as nat + 65536 * dict[p + 2] as nat;
    }

    /** The distance of the only position that the fast parser looks at, if it is in the dictionary and the match is worth it. */
    ghost function Probed(probe: nat): nat
      reads this
    {
      var dist := Dist16(lookaheadPos, probe);
      if 1 <= dist <= dictSize && IsMatch(stream, lookaheadPos, dist, 3) && (dist < 8 * 1024 || IsMatch(stream, lookaheadPos, dist, 4))
      then dist else 0
    }

    /** The position that has the same hash is compared; a distance of 0 stands for a literal. */
    method FastProbe() returns (dist: nat, len: nat)
      requires Valid() && lookaheadSize >= 4
      modifies hash
      ensures hash[..] == old(hash[..])[FastHash(stream, lookaheadPos) := lookaheadPos % 65536]
      ensures dist == Probed(old(hash[FastHash(stream, lookaheadPos)]))
      ensures if dist == 0 then len == 1
              else MIN_MATCH_LEN <= len <= lookaheadSize && len <= MAX_MATCH_LEN && dist <= dictSize
                   && IsMatch(stream, lookaheadPos, dist, len)
      ensures dist > 0 ==> len == MAX_MATCH_LEN || !IsMatch(stream, lookaheadPos, dist, len + 1)
    {
      hide Holds, IsMatch, Xor, Probed;
      var trigram := Trigram(lookaheadPos % LZ_DICT_SIZE);
      var h: nat := Xor(trigram, trigram / 131072) % 4096;
      Ahead();
      var probe := hash[h];
      hash[h] := lookaheadPos % 65536;
      dist, len := ComparePosition(probe, trigram);
    }

    method ComparePosition(probe: nat, trigram: nat) returns (dist: nat, len: nat)
      requires Valid() && lookaheadSize >= 4
      requires var pos := lookaheadPos % LZ_DICT_SIZE;
        trigram == dict[pos] as nat + 256 * dict[pos + 1] as nat + 65536 * dict[pos + 2] as nat
      ensures dist == Probed(probe)
      ensures if dist == 0 then len == 1
              else MIN_MATCH_LEN <= len <= lookaheadSize && len <= MAX_MATCH_LEN && dist <= dictSize
                   && IsMatch(stream, lookaheadPos, dist, len)
      ensures dist > 0 ==> len == MAX_MATCH_LEN || !IsMatch(stream, lookaheadPos, dist, len + 1)
    {
      hide Holds, IsMatch;
      var pos: nat := lookaheadPos % LZ_DICT_SIZE;
      dist, len := Dist16(lookaheadPos, probe), 1;
      if dist > dictSize {
        return 0, 1;
      }
      ProbeSlot(lookaheadPos, probe, dist);
      var probePos: nat := probe % LZ_DICT_SIZE;
      var other := Trigram(probePos);
      if other != trigram {
        OtherTrigram(probePos, dist);
        return 0, 1;
      }
      SameTrigram(dict[pos], dict[pos + 1], dict[pos + 2], dict[probePos], dict[probePos + 1], dict[probePos + 2]);
      var all, n := CompareWords(pos, probePos);
      len := if all then (if dist != 0 then MAX_MATCH_LEN else 0) else n;
      if dist > 0 {
        Agreement(probePos, dist, all, n);
        ThreeAgree(probePos, all, n);
      }
      if len < MIN_MATCH_LEN || (len == MIN_MATCH_LEN && dist >= 8 * 1024) {
        return 0, 1;
      }
      if lookaheadSize < len {
        len := lookaheadSize;
      }
    }

    lemma ThreeAgree(probePos: nat, all: bool, n: nat)
      requires Shape() && probePos < LZ_DICT_SIZE
      requires var pos := lookaheadPos % LZ_DICT_SIZE;
        && dict[pos] == dict[probePos] && dict[pos + 1] == dict[probePos + 1] && dict[pos + 2] == dict[probePos + 2]
        && (all || (n <= MIRROR && dict[pos + n] != dict[probePos + n]))
      ensures all || n >= 3
    {
    }

    /** The bytes of the lookahead, as they are in the dictionary. */
    lemma Ahead()
      requires Valid() && lookaheadSize >= 3
      ensures var pos := lookaheadPos % LZ_DICT_SIZE;
        dict[pos] == stream[lookaheadPos] && dict[pos + 1] == stream[lookaheadPos + 1] && dict[pos + 2] == stream[lookaheadPos + 2]
    {
      hide Holds;
      ReadAhead(dict[..], stream, lookaheadPos, 0);
      ReadAhead(dict[..], stream, lookaheadPos, 1);
      ReadAhead(dict[..], stream, lookaheadPos, 2);
    }

    lemma OtherTrigram(probePos: nat, dist: nat)
      requires Valid() && lookaheadSize >= 3 && dist <= dictSize && probePos == (lookaheadPos - dist) % LZ_DICT_SIZE
      requires var pos := lookaheadPos % LZ_DICT_SIZE;
        dict[pos] != dict[probePos] || dict[pos + 1] != dict[probePos + 1] || dict[pos + 2] != dict[probePos + 2]
      ensures !IsMatch(stream, lookaheadPos, dist, 3)
    {
      hide Holds;
      var pos := lookaheadPos % LZ_DICT_SIZE;
      Differs(dist, probePos, 3, if dict[pos] != dict[probePos] then 0 else if dict[pos + 1] != dict[probePos + 1] then 1 else 2);
    }

    /** How many bytes agree, as far as the lookahead goes and up to 258. */
    lemma Agreement(probePos: nat, dist: nat, all: bool, n: nat)
      requires Valid() && lookaheadSize >= 3 && 1 <= dist <= dictSize && probePos == (lookaheadPos - dist) % LZ_DICT_SIZE
      requires var pos := lookaheadPos % LZ_DICT_SIZE;
        if all then SameBytes(pos, probePos, MAX_MATCH_LEN)
        else n <= MIRROR && dict[pos + n] != dict[probePos + n] && SameBytes(pos, probePos, n)
      ensures forall m: nat :: m <= MAX_MATCH_LEN ==>
        (IsMatch(stream, lookaheadPos, dist, m) <==> m <= lookaheadSize && (all || m <= n))
    {
      hide Holds, IsMatch;
      forall m: nat | m <= MAX_MATCH_LEN
        ensures IsMatch(stream, lookaheadPos, dist, m) <==> m <= lookaheadSize && (all || m <= n)
      {
        if m <= lookaheadSize && (all || m <= n) {
          Compared(probePos, dist, m);
        } else if m <= lookaheadSize {
          Differs(dist, probePos, m, n);
        } else {
          NoLonger(dist, m);
        }
      }
    }

    lemma NoLonger(dist: nat, m: nat)
      requires Valid() && m > lookaheadSize
      ensures !IsMatch(stream, lookaheadPos, dist, m)
    {
      hide Holds;
    }
  }

  lemma SameTrigram(a: Byte, b: Byte, c: Byte, d: Byte, e: Byte, f: Byte)
    requires a as nat + 256 * b as nat + 65536 * c as nat == d as nat + 256 * e as nat + 65536 * f as nat
    ensures a == d && b == e && c == f
  {
  }

  lemma ChunkHolds(dict: seq<Byte>, stream: seq<Byte>, src: seq<Byte>, dst: nat, dict': seq<Byte>)
    requires Holds(dict, stream) && dst == |stream| % LZ_DICT_SIZE && dst + |src| <= LZ_DICT_SIZE && |dict'| == |dict|
    requires forall j :: 0 <= j < LZ_DICT_SIZE ==> dict'[j] == if dst <= j < dst + |src| then src[j - dst] else dict[j]
    requires forall j :: LZ_DICT_SIZE <= j < |dict| ==>
      dict'[j] == if LZ_DICT_SIZE + dst <= j < LZ_DICT_SIZE + dst + |src| then src[j - LZ_DICT_SIZE - dst] else dict[j]
    ensures Holds(dict', stream + src)
  {
    var all := stream + src;
    forall k | |all| - LZ_DICT_SIZE <= k < |all| ensures SlotOk(dict', all, k) {
      if k >= |stream| {
        SlotAfter(|stream|, dst, k - |stream|);
      } else if k >= 0 {
        assert SlotOk(dict, stream, k);
        OtherSlots(|stream|, dst, |src|, k);
      }
    }
  }

  lemma SlotAfter(n: nat, dst: nat, i: nat)
    requires dst == n % LZ_DICT_SIZE
    ensures (n + i) % LZ_DICT_SIZE == (dst + i) % LZ_DICT_SIZE
  {
  }

  lemma OtherSlots(n: nat, dst: nat, len: nat, k: nat)
    requires dst == n % LZ_DICT_SIZE && dst + len <= LZ_DICT_SIZE && n + len - LZ_DICT_SIZE <= k < n
    ensures !(dst <= k % LZ_DICT_SIZE < dst + len)
  {
  }
}
