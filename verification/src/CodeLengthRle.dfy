/** The run-length form of the code lengths (section 3.2.7 of RFC 1951): packed by the encoder, expanded by the decoder. */
module CodeLengthRle {
  import opened Bits

  const NUM_CODE_SIZE_SYMS: nat := 19

  /** Symbols 0 to 15 are lengths; 16 repeats the previous length; 17 and 18 are runs of zeros. */
  datatype RleItem = RleItem(sym: nat, extra: nat)

  function ExtraBits(sym: nat): nat {
    if sym == 16 then 2 else if sym == 17 then 3 else if sym == 18 then 7 else 0
  }

  function RunBase(sym: nat): nat {
    if sym == 18 then 11 else 3
  }

  predicate ItemOk(item: RleItem) {
    item.sym < NUM_CODE_SIZE_SYMS && item.extra < Pow2(ExtraBits(item.sym))
  }

  function Repeated(v: nat, n: nat): (s: seq<nat>)
    ensures |s| == n
  {
    seq(n, _ => v)
  }

  /** What the decoder appends to the lengths it has so far. */
  function Run(lens: seq<nat>, item: RleItem): seq<nat> {
    if item.sym < 16 then [item.sym]
    else Repeated(if item.sym == 16 && lens != [] then lens[|lens| - 1] else 0, RunBase(item.sym) + item.extra)
  }

  /** The lengths after these items; the decoder rejects a repetition with nothing before it. */
  function Expand(items: seq<RleItem>): seq<nat> {
    if items == [] then []
    else
      var front := Expand(items[..|items| - 1]);
      front + Run(front, items[|items| - 1])
  }

  predicate ItemsOk(items: seq<RleItem>) {
    && (forall i :: 0 <= i < |items| ==> ItemOk(items[i]))
    && (items != [] ==> items[0].sym != 16)
  }

  /** packed_code_sizes: a symbol, then its extra bits if it has any. */
  function Packed(items: seq<RleItem>): seq<nat> {
    if items == [] then []
    else
      var last := items[|items| - 1];
      Packed(items[..|items| - 1]) + if last.sym >= 16 then [last.sym, last.extra] else [last.sym]
  }

  function SymCount(items: seq<RleItem>, sym: nat): nat {
    if items == [] then 0
    else SymCount(items[..|items| - 1], sym) + if items[|items| - 1].sym == sym then 1 else 0
  }

  function SymCounts(items: seq<RleItem>): seq<nat> {
    seq(NUM_CODE_SIZE_SYMS, s requires 0 <= s < NUM_CODE_SIZE_SYMS => SymCount(items, s))
  }

  lemma Append(items: seq<RleItem>, item: RleItem)
    ensures Expand(items + [item]) == Expand(items) + Run(Expand(items), item)
    ensures Packed(items + [item]) == Packed(items) + if item.sym >= 16 then [item.sym, item.extra] else [item.sym]
    ensures forall sym :: SymCount(items + [item], sym) == SymCount(items, sym) + if item.sym == sym then 1 else 0
  {
    assert (items + [item])[..|items|] == items;
  }

  /** The form never takes more bytes than there are lengths. */
  lemma {:induction false} NeverLonger(items: seq<RleItem>)
    ensures |Packed(items)| <= |Expand(items)|
  {
    if items != [] {
      NeverLonger(items[..|items| - 1]);
    }
  }

  /** Each item adds at least one length. */
  lemma {:induction false} ExpandPrefix(items: seq<RleItem>, k: nat)
    requires k <= |items|
    ensures |Expand(items[..k])| <= |Expand(items)| && Expand(items[..k]) == Expand(items)[..|Expand(items[..k])|]
    ensures k < |items| ==> |Expand(items[..k])| < |Expand(items)|
    ensures |Expand(items)| >= |items|
  {
    if k < |items| {
      var n := |items| - 1;
      ExpandPrefix(items[..n], k);
      assert items[..n][..k] == items[..k];
    } else {
      assert items[..k] == items;
      if k > 0 {
        ExpandPrefix(items[..k - 1], k - 1);
      }
    }
  }

  /** The symbols used are counted, and only those that occur. */
  lemma {:induction false} CountedIffUsed(items: seq<RleItem>, i: nat)
    requires i < |items|
    ensures SymCount(items, items[i].sym) > 0
  {
    if i < |items| - 1 {
      CountedIffUsed(items[..|items| - 1], i);
    }
  }

  // ---- the form that is sent ----

  function Copies(item: RleItem, n: nat): seq<RleItem> { seq(n, _ => item) }

  /** How many of the last lengths are equal. */
  function LastRun(lens: seq<nat>): (n: nat)
    ensures n <= |lens| && (lens != [] ==> n >= 1)
  {
    if lens == [] then 0
    else if |lens| == 1 || lens[|lens| - 2] != lens[|lens| - 1] then 1
    else 1 + LastRun(lens[..|lens| - 1])
  }

  /** Up to 138 zeros, and up to six repetitions. */
  function ZeroRest(n: nat): seq<RleItem> {
    if n < 3 then Copies(RleItem(0, 0), n) else if n <= 10 then [RleItem(17, n - 3)] else [RleItem(18, n - 11)]
  }

  function RepeatRest(v: nat, n: nat): seq<RleItem> {
    if n < 3 then Copies(RleItem(v, 0), n) else [RleItem(16, n - 3)]
  }

  /** What is sent of a run of n before what is left of it. */
  function Fulls(v: nat, n: nat): seq<RleItem>
    requires n >= 1
  {
    if v == 0 then Copies(RleItem(18, 127), n / 138) else [RleItem(v, 0)] + Copies(RleItem(16, 3), (n - 1) / 6)
  }

  function Left(v: nat, n: nat): seq<RleItem>
    requires n >= 1
  {
    if v == 0 then ZeroRest(n % 138) else RepeatRest(v, (n - 1) % 6)
  }

  /**
    The lengths run by run: zeros 138 at a time as long as there are so many, and then what is left of them; other lengths once,
    then repeated six times as long as there are so many, and then what is left of them.
   */
  function Form(lens: seq<nat>): seq<RleItem>
    decreases |lens|, 1
  {
    if lens == [] then [] else Begun(lens) + Left(lens[|lens| - 1], LastRun(lens))
  }

  function Begun(lens: seq<nat>): seq<RleItem>
    decreases |lens|, 0
  {
    if lens == [] then [] else Form(lens[..|lens| - LastRun(lens)]) + Fulls(lens[|lens| - 1], LastRun(lens))
  }

  lemma FormIs(lens: seq<nat>)
    requires lens != []
    ensures Form(lens) == Begun(lens) + Left(lens[|lens| - 1], LastRun(lens))
  {
    hide Begun, Left, LastRun;
  }

  lemma BegunIs(lens: seq<nat>, front: seq<nat>, n: nat, v: nat)
    requires lens != [] && n == LastRun(lens) && front == lens[..|lens| - n] && v == lens[|lens| - 1]
    ensures Begun(lens) == Form(front) + Fulls(v, n)
  {
    hide Form, LastRun, Fulls;
  }

  lemma LastRunNext(lens: seq<nat>, v: nat)
    ensures LastRun(lens + [v]) == if lens != [] && lens[|lens| - 1] == v then LastRun(lens) + 1 else 1
  {
    assert (lens + [v])[..|lens|] == lens;
  }

  lemma CopyMore(item: RleItem, n: nat)
    ensures Copies(item, n + 1) == Copies(item, n) + [item]
  {
  }

  /** What one more of the same adds. */
  function Full(v: nat, n: nat): seq<RleItem> {
    if v == 0 then (if (n + 1) % 138 == 0 then [RleItem(18, 127)] else []) else if n % 6 == 0 then [RleItem(16, 3)] else []
  }

  lemma FullsNext(v: nat, n: nat)
    requires n >= 1
    ensures Fulls(v, n + 1) == Fulls(v, n) + Full(v, n)
  {
    hide Copies;
    if v == 0 {
      CopyMore(RleItem(18, 127), n / 138);
    } else {
      CopyMore(RleItem(16, 3), (n - 1) / 6);
    }
  }

  lemma SameFront(lens: seq<nat>, v: nat, n: nat)
    requires n <= |lens|
    ensures (lens + [v])[..n] == lens[..n]
  {
  }

  lemma Grouped(front: seq<RleItem>, fulls: seq<RleItem>, more: seq<RleItem>, fulls': seq<RleItem>)
    requires fulls' == fulls + more
    ensures front + fulls' == front + fulls + more
  {
  }

  /** One more length of the last run. */
  lemma RunGoesOn(lens: seq<nat>, v: nat)
    requires lens != [] && v == lens[|lens| - 1]
    ensures LastRun(lens + [v]) == LastRun(lens) + 1 && Begun(lens + [v]) == Begun(lens) + Full(v, LastRun(lens))
  {
    hide *;
    LastRunNext(lens, v);
    RunIs(lens, v, lens + [v], LastRun(lens));
  }

  lemma RunIs(lens: seq<nat>, v: nat, next: seq<nat>, n: nat)
    requires lens != [] && v == lens[|lens| - 1] && next == lens + [v] && LastRun(lens) == n && LastRun(next) == n + 1
    ensures Begun(next) == Begun(lens) + Full(v, n)
  {
    hide *;
    var front := lens[..|lens| - n];
    SameFront(lens, v, |lens| - n);
    BegunIs(lens, front, n, v);
    BegunIs(next, front, n + 1, v);
    FullsNext(v, n);
    Grouped(Form(front), Fulls(v, n), Full(v, n), Fulls(v, n + 1));
  }

  /** A run begins. */
  lemma RunBegins(lens: seq<nat>, v: nat)
    requires lens == [] || lens[|lens| - 1] != v
    ensures LastRun(lens + [v]) == 1 && Begun(lens + [v]) == Form(lens) + if v == 0 then [] else [RleItem(v, 0)]
  {
    hide Form, Begun, LastRun;
    LastRunNext(lens, v);
    assert (lens + [v])[..|lens|] == lens;
    BegunIs(lens + [v], lens, 1, v);
  }

  // ---- the encoder's loop ----

  /** The lengths read so far: those already packed, then those counted in rle_repeat_count or in rle_z_count. */
  ghost predicate Pending(lens: seq<nat>, items: seq<RleItem>, prev: nat, zeros: nat, repeats: nat) {
    && zeros < 138 && repeats < 6 && (zeros == 0 || repeats == 0)
    && lens == Expand(items) + Repeated(prev, repeats) + Repeated(0, zeros)
    && (repeats > 0 ==> 0 < prev < 16 && Expand(items) != [] && Expand(items)[|Expand(items)| - 1] == prev)
    && ItemsOk(items) && items == Begun(lens) && InStep(lens, zeros, repeats)
  }

  /** What is counted is what is left of the last run. */
  predicate InStep(lens: seq<nat>, zeros: nat, repeats: nat) {
    if lens == [] then zeros == repeats == 0
    else if lens[|lens| - 1] == 0 then zeros == LastRun(lens) % 138 && repeats == 0
    else zeros == 0 && repeats == (LastRun(lens) - 1) % 6
  }

  /** What prev_code_size holds: the length read last. */
  predicate IsPrevious(lens: seq<nat>, prev: nat) {
    if lens == [] then prev == 255 else prev == lens[|lens| - 1]
  }

  lemma KeepOk(items: seq<RleItem>, item: RleItem)
    requires ItemsOk(items) && ItemOk(item) && (item.sym == 16 ==> Expand(items) != [])
    ensures ItemsOk(items + [item])
  {
  }

  lemma ZeroRun(lens: seq<nat>, n: nat)
    requires n <= 138
    ensures 3 <= n <= 10 ==> ItemOk(RleItem(17, n - 3)) && Run(lens, RleItem(17, n - 3)) == Repeated(0, n)
    ensures n > 10 ==> ItemOk(RleItem(18, n - 11)) && Run(lens, RleItem(18, n - 11)) == Repeated(0, n)
  {
    Pow2Values();
  }

  lemma RepeatAppend(v: nat, n: nat)
    ensures Repeated(v, n + 1) == Repeated(v, n) + [v]
  {
  }

  /** packed_code_sizes and huff_count[2], filled while the code lengths are read. */
  class Packer {
    const packed: array<nat>
    const huffCount: array<nat>
    var numPacked: nat
    ghost var items: seq<RleItem>

    ghost predicate Valid()
      reads this, packed, huffCount
    {
      && packed.Length == 320 && huffCount.Length == 288 && packed != huffCount && numPacked <= 320
      && packed[..numPacked] == Packed(items)
      && (forall sym :: 0 <= sym < 288 ==> huffCount[sym] == SymCount(items, sym))
    }

    constructor (huffCount: array<nat>)
      requires huffCount.Length == 288 && forall sym :: 0 <= sym < 288 ==> huffCount[sym] == 0
      ensures Valid() && items == [] && this.huffCount == huffCount && fresh(packed)
    {
      this.huffCount := huffCount;
      packed := new nat[320];
      numPacked := 0;
      items := [];
    }

    method Add(item: RleItem)
      requires Valid() && ItemsOk(items) && ItemOk(item) && (item.sym == 16 ==> Expand(items) != [])
      requires |Expand(items)| + |Run(Expand(items), item)| <= 320
      modifies this, packed, huffCount
      ensures Valid() && items == old(items) + [item]
      ensures ItemsOk(items) && Expand(items) == old(Expand(items)) + Run(old(Expand(items)), item)
    {
      hide Expand, Packed, SymCount, ItemsOk, Run;
      KeepOk(items, item);
      NeverLonger(items + [item]);
      Append(items, item);
      huffCount[item.sym] := huffCount[item.sym] + 1;
      packed[numPacked] := item.sym;
      if item.sym >= 16 {
        packed[numPacked + 1] := item.extra;
        numPacked := numPacked + 2;
      } else {
        numPacked := numPacked + 1;
      }
      items := items + [item];
    }

    method AddSingles(v: nat, n: nat)
      requires Valid() && ItemsOk(items) && v < 16 && n <= 2 && |Expand(items)| + n <= 320
      modifies this, packed, huffCount
      ensures Valid() && ItemsOk(items) && Expand(items) == old(Expand(items)) + Repeated(v, n)
      ensures items == old(items) + Copies(RleItem(v, 0), n)
    {
      hide Expand, Packed, SymCount, ItemsOk;
      ghost var before := Expand(items);
      var i := 0;
      while i < n
        invariant i <= n && Valid() && ItemsOk(items) && Expand(items) == before + Repeated(v, i)
        invariant items == old(items) + Copies(RleItem(v, 0), i)
      {
        CopyMore(RleItem(v, 0), i);
        RepeatAppend(v, i);
        Add(RleItem(v, 0));
        i := i + 1;
      }
    }

    /** TDEFL_RLE_PREV_CODE_SIZE */
    method FlushRepeats(prev: nat, repeats: nat, ghost lens: seq<nat>)
      requires Valid() && |lens| <= 320 && repeats <= 6
      requires ItemsOk(items) && lens == Expand(items) + Repeated(prev, repeats)
      requires repeats > 0 ==> 0 < prev < 16 && Expand(items) != [] && Expand(items)[|Expand(items)| - 1] == prev
      modifies this, packed, huffCount
      ensures Valid() && ItemsOk(items) && Expand(items) == lens && items == old(items) + RepeatRest(prev, repeats)
    {
      if repeats >= 3 {
        Pow2Values();
        Add(RleItem(16, repeats - 3));
      } else if repeats > 0 {
        AddSingles(prev, repeats);
      }
    }

    /** TDEFL_RLE_ZERO_CODE_SIZE */
    method FlushZeros(zeros: nat, ghost lens: seq<nat>)
      requires Valid() && |lens| <= 320 && zeros <= 138 && ItemsOk(items) && lens == Expand(items) + Repeated(0, zeros)
      modifies this, packed, huffCount
      ensures Valid() && ItemsOk(items) && Expand(items) == lens && items == old(items) + ZeroRest(zeros)
    {
      ZeroRun(Expand(items), zeros);
      if 3 <= zeros <= 10 {
        Add(RleItem(17, zeros - 3));
      } else if zeros > 10 {
        Add(RleItem(18, zeros - 11));
      } else {
        AddSingles(0, zeros);
      }
    }

    /** The whole sequence of lengths is packed, run by run; expanding it gives it back. */
    method Pack(lens: array<nat>, n: nat)
      requires Valid() && items == [] && n <= lens.Length && n <= 320 && forall i :: 0 <= i < n ==> lens[i] <= 15
      requires lens != packed && lens != huffCount
      modifies this, packed, huffCount
      ensures Valid() && ItemsOk(items) && Expand(items) == lens[..n] && items == Form(lens[..n])
    {
      hide Expand, Packed, SymCount, ItemsOk, Form, Begun, LastRun, ZeroRest, RepeatRest;
      ghost var all := lens[..n];
      var prev, zeros, repeats := 255, 0, 0;
      NothingBegun();
      for i := 0 to n
        invariant lens[..n] == all && Valid()
        invariant Pending(all[..i], items, prev, zeros, repeats) && IsPrevious(all[..i], prev)
      {
        assert all[..i + 1] == all[..i] + [lens[i]];
        prev, zeros, repeats := PackOne(lens[i], prev, zeros, repeats, all[..i]);
      }
      assert all[..n] == all;
      WhatIsLeft(all, prev, zeros, repeats);
      NothingLeft(prev);
      if repeats != 0 {
        FlushRepeats(prev, repeats, all);
      } else {
        FlushZeros(zeros, all);
      }
    }

    method PackOne(codeSize: nat, prev: nat, zeros: nat, repeats: nat, ghost lens: seq<nat>)
      returns (prev': nat, zeros': nat, repeats': nat)
      requires Valid() && codeSize <= 15 && |lens| < 320
      requires Pending(lens, items, prev, zeros, repeats) && IsPrevious(lens, prev)
      modifies this, packed, huffCount
      ensures Valid() && Pending(lens + [codeSize], items, prev', zeros', repeats') && IsPrevious(lens + [codeSize], prev')
    {
      hide Expand, Packed, SymCount, ItemsOk, Form, Begun, LastRun, ZeroRest, RepeatRest;
      prev' := codeSize;
      if codeSize == 0 {
        zeros' := PackZero(prev, zeros, repeats, lens);
        repeats' := 0;
      } else {
        WhatIsLeft(lens, prev, zeros, repeats);
        NothingLeft(prev);
        if zeros != 0 {
          FlushZeros(zeros, lens);
        }
        zeros' := 0;
        repeats' := PackLength(codeSize, prev, repeats, lens);
      }
    }

    method PackZero(prev: nat, zeros: nat, repeats: nat, ghost lens: seq<nat>) returns (zeros': nat)
      requires Valid() && |lens| < 320 && Pending(lens, items, prev, zeros, repeats) && IsPrevious(lens, prev)
      modifies this, packed, huffCount
      ensures Valid() && Pending(lens + [0], items, 0, zeros', 0)
    {
      hide Expand, Packed, SymCount, ItemsOk, Form, Begun, LastRun, ZeroRest, RepeatRest;
      WhatIsLeft(lens, prev, zeros, repeats);
      ZeroNext(lens);
      NothingLeft(prev);
      AllLeft();
      if repeats != 0 {
        FlushRepeats(prev, repeats, lens);
      }
      zeros' := zeros + 1;
      RepeatAppend(0, zeros);
      if zeros' == 138 {
        FlushZeros(138, lens + [0]);
        zeros' := 0;
      }
    }

    /** Behind a length that differs from the last one, what has been counted has been flushed. */
    method PackLength(codeSize: nat, prev: nat, repeats: nat, ghost lens: seq<nat>) returns (repeats': nat)
      requires Valid() && |lens| < 320 && 0 < codeSize <= 15 && IsPrevious(lens, prev) && ItemsOk(items) && repeats < 6
      requires lens == Expand(items) + Repeated(prev, repeats) && items + RepeatRest(prev, repeats) == Form(lens)
      requires repeats > 0 ==> 0 < prev < 16 && Expand(items) != [] && Expand(items)[|Expand(items)| - 1] == prev
      requires codeSize == prev ==> Pending(lens, items, prev, 0, repeats)
      modifies this, packed, huffCount
      ensures Valid() && Pending(lens + [codeSize], items, codeSize, 0, repeats')
    {
      hide Expand, Packed, SymCount, ItemsOk, Form, Begun, LastRun, RepeatRest;
      if codeSize != prev {
        RunBegins(lens, codeSize);
        NothingLeft(prev);
        if repeats != 0 {
          FlushRepeats(prev, repeats, lens);
        }
        repeats' := 0;
        Add(RleItem(codeSize, 0));
      } else {
        RunGoesOn(lens, codeSize);
        repeats' := repeats + 1;
        RepeatAppend(prev, repeats);
        if repeats' == 6 {
          SixLeft(codeSize);
          FlushRepeats(prev, 6, lens + [codeSize]);
          repeats' := 0;
        }
      }
    }
  }

  /** What has been counted is what is still to be sent. */
  lemma WhatIsLeft(lens: seq<nat>, prev: nat, zeros: nat, repeats: nat)
    requires InStep(lens, zeros, repeats) && IsPrevious(lens, prev)
    ensures Form(lens) == Begun(lens) + if zeros != 0 then ZeroRest(zeros) else RepeatRest(prev, repeats)
  {
    hide LastRun;
    if lens != [] {
      FormIs(lens);
    }
  }

  lemma NothingBegun()
    ensures Expand([]) == [] && ItemsOk([]) && Begun([]) == []
  {
  }

  lemma NothingLeft(prev: nat)
    ensures RepeatRest(prev, 0) == [] && ZeroRest(0) == []
  {
  }

  lemma AllLeft()
    ensures ZeroRest(138) == [RleItem(18, 127)]
  {
  }

  lemma SixLeft(v: nat)
    ensures RepeatRest(v, 6) == [RleItem(16, 3)]
  {
  }

  /** What a zero adds. */
  lemma ZeroNext(lens: seq<nat>)
    ensures lens == [] || lens[|lens| - 1] != 0 ==> LastRun(lens + [0]) == 1 && Begun(lens + [0]) == Form(lens)
    ensures lens != [] && lens[|lens| - 1] == 0 ==>
      LastRun(lens + [0]) == LastRun(lens) + 1 && Begun(lens + [0]) == Begun(lens) + Full(0, LastRun(lens))
  {
    hide LastRun, Form, Begun, Full;
    if lens == [] || lens[|lens| - 1] != 0 {
      RunBegins(lens, 0);
    } else {
      RunGoesOn(lens, 0);
    }
  }
}
