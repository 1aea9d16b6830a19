/** The symbols and extra bits the encoder sends for its tokens, and that they mean those tokens. */
module TokenItems {
  import opened Bits
  import opened TableBound
  import opened LenDist
  import opened Lz
  import opened Deflate
  import opened TokenBuffers

  function ItemOf(t: Token): Item
    requires Recordable(t)
  {
    match t
    case Lit(b) => Literal(b)
    case Match(len, dist) =>
      Copy(LenSym(len - 3), (len - 3) % Pow2(LenExtra(len - 3)), DistSym(dist - 1), (dist - 1) % Pow2(DistExtra(dist - 1)))
  }

  lemma ItemShape(t: Token)
    requires Recordable(t)
    ensures t.Lit? ==> ItemOf(t) == Literal(t.b) && LitSymOf(t) == t.b
    ensures t.Match? ==> ItemOf(t).Copy? && ItemOf(t).lenSym == LitSymOf(t) && ItemOf(t).distSym == DistSymOf(t)
  {
    hide LenSym, DistSym;
  }

  function Items(ts: seq<Token>): (items: seq<Item>)
    requires AllRecordable(ts)
    ensures |items| == |ts|
  {
    if ts == [] then [] else [ItemOf(ts[0])] + Items(ts[1..])
  }

  /** The decoder takes what is sent for a token to be that token. */
  lemma ItemMeaning(t: Token)
    requires Recordable(t)
    ensures Meaning(ItemOf(t)) == t
    ensures t.Match? ==> LengthExtra(LitSymOf(t)) == LenExtra(t.len - 3) && DistanceExtra(DistSymOf(t)) == DistExtra(t.dist - 1)
  {
    if t.Match? {
      LengthsAgree(t.len - 3);
      DistancesAgree(t.dist - 1);
    }
  }

  /** Both symbols of the token have codes. */
  predicate TokenCoded(c: Codes, t: Token) {
    Recordable(t) && Coded(c.lit, LitSymOf(t)) && (t.Match? ==> Coded(c.dist, DistSymOf(t)))
  }

  predicate AllCoded(c: Codes, ts: seq<Token>) {
    forall i :: 0 <= i < |ts| ==> TokenCoded(c, ts[i])
  }

  lemma ItemFits(c: Codes, t: Token)
    requires TokenCoded(c, t)
    ensures ItemOk(c, ItemOf(t))
  {
    hide LENGTH_BASE, LENGTH_EXTRA, DIST_BASE, DIST_EXTRA, Coded, LenSym, DistSym, LenExtra, DistExtra;
    SymbolRange(t);
    ItemMeaning(t);
    if t.Match? {
      ModBelow(t.len - 3, Pow2(LenExtra(t.len - 3)));
      ModBelow(t.dist - 1, Pow2(DistExtra(t.dist - 1)));
      MatchRange(t);
    }
  }

  lemma MatchRange(t: Token)
    requires Recordable(t) && t.Match?
    ensures 257 <= LitSymOf(t) <= 285
  {
    LengthsAgree(t.len - 3);
  }

  lemma ModBelow(v: nat, p: nat)
    requires p >= 1
    ensures v % p < p
  {
  }

  /** A block made from tokens decodes to what the tokens stand for. */
  lemma {:induction false} TokensDecode(c: Codes, ts: seq<Token>, out: seq<Byte>)
    requires AllRecordable(ts) && AllCoded(c, ts) && TokensOk(ts, |out|)
    ensures ItemsOk(c, Items(ts), |out|) && ItemsOut(c, Items(ts), out) == Expand(ts, out)
  {
    hide Meaning, ItemOf, ItemOk, TokenCoded, ItemsOk, ItemsOut, CopyMatch;
    if ts == [] {
      NoItems(c, out);
    } else {
      assert TokenCoded(c, ts[0]);
      ItemMeaning(ts[0]);
      ItemFits(c, ts[0]);
      TokensDecode(c, ts[1..], Apply(out, ts[0]));
      ItemsCons(c, ItemOf(ts[0]), Items(ts[1..]), out, ts[0], Apply(out, ts[0]));
    }
  }

  lemma NoItems(c: Codes, out: seq<Byte>)
    ensures ItemsOk(c, [], |out|) && ItemsOut(c, [], out) == out
  {
  }

  lemma ItemsCons(c: Codes, item: Item, rest: seq<Item>, out: seq<Byte>, t: Token, next: seq<Byte>)
    requires ItemOk(c, item) && t == Meaning(item) && TokenOk(t, |out|) && next == Apply(out, t) && ItemsOk(c, rest, |next|)
    ensures ItemsOk(c, [item] + rest, |out|) && ItemsOut(c, [item] + rest, out) == ItemsOut(c, rest, next)
  {
    hide Meaning, ItemOk, CopyMatch;
    var all := [item] + rest;
    assert all[0] == item && all[1..] == rest;
  }
}
