/** LZ77 tokens and what they stand for. */
module Lz {
  import opened Bits

  const MIN_MATCH_LEN: nat := 3
  const MAX_MATCH_LEN: nat := 258
  const LZ_DICT_SIZE: nat := 32768

  datatype Token = Lit(b: Byte) | Match(len: nat, dist: nat)

  /** A match reaches back to one of the n bytes before it. */
  predicate TokenOk(t: Token, n: nat) {
    t.Match? ==> MIN_MATCH_LEN <= t.len <= MAX_MATCH_LEN && 1 <= t.dist <= n && t.dist <= LZ_DICT_SIZE
  }

  function TokenLen(t: Token): nat {
    if t.Match? then t.len else 1
  }

  /** Byte by byte: a match longer than its distance repeats bytes it has just written. */
  function CopyMatch(out: seq<Byte>, len: nat, dist: nat): (r: seq<Byte>)
    requires 1 <= dist <= |out|
    ensures |r| == |out| + len && out <= r
    decreases len
  {
    if len == 0 then out else CopyMatch(out + [out[|out| - dist]], len - 1, dist)
  }

  function Apply(out: seq<Byte>, t: Token): (r: seq<Byte>)
    requires TokenOk(t, |out|)
    ensures |r| == |out| + TokenLen(t) && out <= r
  {
    if t.Lit? then out + [t.b] else CopyMatch(out, t.len, t.dist)
  }

  predicate TokensOk(tokens: seq<Token>, n: nat) {
    tokens == [] || (TokenOk(tokens[0], n) && TokensOk(tokens[1..], n + TokenLen(tokens[0])))
  }

  /** The bytes after the tokens have been decoded behind out. */
  function Expand(tokens: seq<Token>, out: seq<Byte>): (r: seq<Byte>)
    requires TokensOk(tokens, |out|)
    ensures out <= r
  {
    if tokens == [] then out else Expand(tokens[1..], Apply(out, tokens[0]))
  }

  function TokensLen(tokens: seq<Token>): nat {
    if tokens == [] then 0 else TokenLen(tokens[0]) + TokensLen(tokens[1..])
  }

  lemma {:induction false} ExpandLen(tokens: seq<Token>, out: seq<Byte>)
    requires TokensOk(tokens, |out|)
    ensures |Expand(tokens, out)| == |out| + TokensLen(tokens)
  {
    if tokens != [] {
      ExpandLen(tokens[1..], Apply(out, tokens[0]));
    }
  }

  lemma {:induction false} ExpandAppend(tokens: seq<Token>, t: Token, out: seq<Byte>)
    requires TokensOk(tokens, |out|) && TokenOk(t, |out| + TokensLen(tokens))
    ensures TokensOk(tokens + [t], |out|) && TokensLen(tokens + [t]) == TokensLen(tokens) + TokenLen(t)
    ensures |Expand(tokens, out)| == |out| + TokensLen(tokens)
    ensures Expand(tokens + [t], out) == Apply(Expand(tokens, out), t)
  {
    var all := tokens + [t];
    ExpandLen(tokens, out);
    if tokens == [] {
      assert all[0] == t && all[1..] == [];
    } else {
      ExpandAppend(tokens[1..], t, Apply(out, tokens[0]));
      assert all[0] == tokens[0] && all[1..] == tokens[1..] + [t];
    }
  }

  predicate Repeats(s: seq<Byte>, i: int, dist: nat) {
    dist <= i < |s| && s[i] == s[i - dist]
  }

  /** The copy is the bytes that satisfy the equation a match is found by. */
  lemma {:induction false} CopyIs(s: seq<Byte>, n: nat, len: nat, dist: nat)
    requires 1 <= dist <= n && n + len <= |s|
    requires forall i :: n <= i < n + len ==> Repeats(s, i, dist)
    ensures CopyMatch(s[..n], len, dist) == s[..n + len]
    decreases len
  {
    if len > 0 {
      assert Repeats(s, n, dist);
      assert s[..n] + [s[..n][n - dist]] == s[..n + 1];
      CopyIs(s, n + 1, len - 1, dist);
    }
  }
}
