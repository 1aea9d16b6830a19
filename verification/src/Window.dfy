/**
  The output side of tinfl_decompress: either one buffer for the whole output, or a ring whose size is a power of two that
  always holds the last bytes produced.
 */
module Windows {
  import opened Bits
  import opened Lz

  /** x & (size - 1), for sizes that are powers of two; in a buffer that does not wrap the mask is all ones. */
  function Masked(x: int, size: nat, wrapping: bool): int
    requires size > 0
  {
    if wrapping then x % size else x
  }

  lemma MaskedIs(x: int, r: nat, laps: int, size: nat)
    requires r < size && x == laps * size + r
    ensures Masked(x, size, true) == r
  {
    DivModUnique(x, size, laps, r);
  }

  lemma OneLapLess(laps: int, size: int)
    ensures (laps - 1) * size == laps * size - size
    ensures (laps + 1) * size == laps * size + size
  {
  }

  /** s has been extended behind n by copying from dist bytes back. */
  ghost predicate Copied(s: seq<Byte>, n: nat, dist: nat) {
    forall i :: n <= i < |s| ==> Repeats(s, i, dist)
  }

  lemma CopiedMore(s: seq<Byte>, t: seq<Byte>, n: nat, dist: nat)
    requires n <= |s| && s <= t && Copied(s, n, dist) && Copied(t, |s|, dist)
    ensures Copied(t, n, dist)
  {
    forall i | n <= i < |t| ensures Repeats(t, i, dist) {
      if i < |s| {
        assert Repeats(s, i, dist);
      }
    }
  }

  class Window {
    const buf: array<Byte>
    const wrapping: bool
    var pos: nat
    var end: nat
    /** Everything produced so far, and how much of it before the current lap. */
    ghost var out: seq<Byte>
    ghost var base: nat
    ghost var lap: nat

    ghost predicate Valid()
      reads this, buf
    {
      && pos <= end <= buf.Length && 0 < buf.Length && base + pos == |out|
      && (wrapping ==> end == buf.Length)
      && base == lap * buf.Length && (!wrapping ==> lap == 0)
      && (forall i :: 0 <= i < pos ==> buf[i] == out[base + i])
      && (forall i :: pos <= i < buf.Length && base + i >= buf.Length && wrapping ==> buf[i] == out[base + i - buf.Length])
    }

    constructor (buf: array<Byte>, wrapping: bool)
      requires buf.Length > 0
      ensures Valid() && out == [] && this.buf == buf && this.wrapping == wrapping && pos == 0
    {
      this.buf, this.wrapping, pos, end, out, base := buf, wrapping, 0, buf.Length, [], 0;
      lap := 0;
    }

    /** A call goes on where the last one stopped, in a ring at its start if its end was reached. */
    method StartCall(next: nat, size: nat)
      requires Valid() && next + size <= buf.Length
      requires next == pos || (wrapping && pos == buf.Length && next == 0)
      requires wrapping ==> next + size == buf.Length
      modifies this`pos, this`end, this`base, this`lap
      ensures Valid() && pos == next && end == next + size && out == old(out)
    {
      if next != pos {
        OneLapLess(lap, buf.Length);
        base, lap := base + buf.Length, lap + 1;
      }
      pos, end := next, next + size;
    }

    /** The slot of the byte dist bytes back. */
    ghost predicate IsSource(src: int, dist: nat)
      reads this
    {
      0 <= src < buf.Length && (src == pos - dist || (wrapping && src == pos - dist + buf.Length && pos < dist <= buf.Length))
    }

    lemma PosBound()
      requires Valid()
      ensures pos <= end <= buf.Length && pos == |out| - lap * buf.Length && (!wrapping ==> pos == |out|)
      ensures pos <= |out|
    {
    }

    lemma SourceHolds(src: int, dist: nat)
      requires Valid() && 1 <= dist <= |out| && IsSource(src, dist)
      ensures buf[src] == out[|out| - dist]
    {
      if src == pos - dist {
        assert buf[src] == out[base + src];
      } else {
        assert base + src >= buf.Length;
      }
    }

    /** The slot computed from a position that counts from the start of some lap. */
    lemma SourceSlot(from: int, start: nat, dist: nat)
      requires Valid() && 1 <= dist <= |out| && (wrapping ==> dist <= buf.Length)
      requires from == if wrapping then |out| - start * buf.Length else |out|
      ensures IsSource(Masked(from - dist, buf.Length, wrapping), dist)
    {
      if wrapping {
        MulSub(lap, start, buf.Length);
        if dist <= pos {
          MaskedIs(from - dist, pos - dist, lap - start, buf.Length);
        } else {
          OneLapLess(lap - start, buf.Length);
          MaskedIs(from - dist, pos - dist + buf.Length, lap - start - 1, buf.Length);
        }
      }
    }

    method Put(b: Byte)
      requires Valid() && pos < end
      modifies this`pos, this`out, buf
      ensures Valid() && out == old(out) + [b] && pos == old(pos) + 1
    {
      buf[pos] := b;
      pos, out := pos + 1, out + [b];
    }

    method PutAll(data: seq<Byte>)
      requires Valid() && pos + |data| <= end
      modifies this`pos, this`out, buf
      ensures Valid() && out == old(out) + data && pos == old(pos) + |data|
    {
      for i := 0 to |data|
        invariant Valid() && out == old(out) + data[..i] && pos == old(pos) + i
      {
        Put(data[i]);
      }
      assert data[..|data|] == data;
    }

    /** One byte of a match. */
    method CopyByte(src: int, dist: nat)
      requires Valid() && pos < end && 1 <= dist <= |out| && IsSource(src, dist)
      modifies this`pos, this`out, buf
      ensures Valid() && pos == old(pos) + 1 && out == old(out) + [old(out)[|old(out)| - dist]]
      ensures Copied(out, |old(out)|, dist)
    {
      SourceHolds(src, dist);
      Put(buf[src]);
    }

    /** Four bytes are read before any is written. */
    method CopyWord(src: int, dist: nat)
      requires Valid() && pos + 4 <= end && 4 <= dist <= |out| && IsSource(src, dist) && src + 4 <= buf.Length
      modifies this`pos, this`out, buf
      ensures Valid() && pos == old(pos) + 4 && |out| == |old(out)| + 4 && old(out) <= out
      ensures Copied(out, |old(out)|, dist)
    {
      SourceHolds(src, dist);
      SourceHolds(src + 1, dist - 1);
      SourceHolds(src + 2, dist - 2);
      SourceHolds(src + 3, dist - 3);
      PutAll([buf[src], buf[src + 1], buf[src + 2], buf[src + 3]]);
    }

    /** The copy loops for a match that fits: eight bytes at a time, then three, then one. */
    method CopyRun(len: nat, dist: nat, source: int)
      requires Valid() && 3 <= len && pos + len <= end && 1 <= dist <= |out|
      requires IsSource(source, dist) && source + len <= end
      modifies this`pos, this`out, buf
      ensures Valid() && pos == old(pos) + len && out == CopyMatch(old(out), len, dist)
    {
      ghost var n := |out|;
      var counter, src := len, source;
      if 9 <= counter <= dist {
        CopyWords(counter / 8, dist, src);
        src, counter := src + counter / 8 * 8, counter % 8;
        if counter < 3 {
          if counter > 0 {
            CopyBytes(counter, dist, src, n);
          }
          CopyIs(out, n, len, dist);
          assert out[..n] == old(out) && out[..n + len] == out;
          return;
        }
      }
      while counter > 2
        invariant Valid() && counter <= len && pos == old(pos) + (len - counter) && |out| == n + (len - counter)
        invariant src == source + (len - counter) && (counter > 0 ==> IsSource(src, dist))
        invariant old(out) <= out && Copied(out, n, dist)
      {
        CopyBytes(3, dist, src, n);
        src, counter := src + 3, counter - 3;
      }
      if counter > 0 {
        CopyBytes(counter, dist, src, n);
      }
      CopyIs(out, n, len, dist);
      assert out[..n] == old(out) && out[..n + len] == out;
    }

    method CopyWords(k: nat, dist: nat, source: int)
      requires Valid() && pos + 8 * k <= end && 8 * k <= dist && 4 <= dist <= |out|
      requires IsSource(source, dist) && source + 8 * k <= end
      modifies this`pos, this`out, buf
      ensures Valid() && pos == old(pos) + 8 * k && |out| == |old(out)| + 8 * k && old(out) <= out
      ensures Copied(out, |old(out)|, dist)
    {
      ghost var n := |out|;
      for i := 0 to k
        invariant Valid() && pos == old(pos) + 8 * i && |out| == n + 8 * i && old(out) <= out && Copied(out, n, dist)
      {
        ghost var s := out;
        CopyWord(source + 8 * i, dist);
        CopiedMore(s, out, n, dist);
        ghost var t := out;
        CopyWord(source + 8 * i + 4, dist);
        CopiedMore(t, out, n, dist);
      }
    }

    method CopyBytes(k: nat, dist: nat, source: int, ghost n: nat)
      requires Valid() && 1 <= k && pos + k <= end && 1 <= dist <= n <= |out|
      requires IsSource(source, dist) && source + k <= end && Copied(out, n, dist)
      modifies this`pos, this`out, buf
      ensures Valid() && pos == old(pos) + k && |out| == |old(out)| + k && old(out) <= out && Copied(out, n, dist)
    {
      for i := 0 to k
        invariant Valid() && pos == old(pos) + i && |out| == |old(out)| + i && old(out) <= out && Copied(out, n, dist)
      {
        ghost var s := out;
        CopyByte(source + i, dist);
        CopiedMore(s, out, n, dist);
      }
    }
  }
}
