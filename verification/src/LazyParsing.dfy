/** What tdefl_compress_normal and tdefl_compress_fast are to do, step by step, as relations between values. */
module LazyParsing {
  import opened Bits
  import opened Lz
  import opened TokenBuffers
  import opened HashChains

  /** The flags that bear on parsing, and m_max_probes. */
  datatype Rules = Rules(greedy: bool, rle: bool, filter: bool, raw: bool, maxProbes0: nat, maxProbes1: nat)

  /** A match that is held back until the next position has been searched, and the byte before that position. */
  datatype Pending = Nothing | Waiting(dist: nat, len: nat, lit: Byte)

  /**
    The stream taken in so far, the position in it, how far back matches may reach, the tokens of all blocks so far, and those
    of the block to come.
   */
  datatype State =
    State(stream: seq<Byte>, reset: nat, pos: nat, window: nat, pending: Pending, sent: seq<Token>, unsent: seq<Token>) {
    function Seen(): View { View(stream, reset, pos, window) }
    function Ahead(): int { |stream| - pos }
  }

  function LenSoFar(pending: Pending): nat {
    if pending.Waiting? then pending.len else MIN_MATCH_LEN - 1
  }

  // ---- what is looked for ----

  /** How many positions a search looks at, at least, if there are so many: fewer if a long match is pending. */
  function Looks(r: Rules, len: nat): nat {
    var max := if len >= 32 then r.maxProbes1 else r.maxProbes0;
    if max > 0 then max - 1 else 0
  }

  /** The run of the last byte, as long as it goes. */
  ghost predicate IsRun(v: View, dist: nat, len: nat) {
    if IsMatch(v.stream, v.pos, 1, MIN_MATCH_LEN) then
      dist == 1 && IsMatch(v.stream, v.pos, 1, len) && !IsMatch(v.stream, v.pos, 1, len + 1)
    else dist == 0 && len == 0
  }

  /** A match longer than len0, or none; and no position among the first n on the chain has a longer one. */
  ghost predicate IsLongest(v: View, n: nat, len0: nat, dist: nat, len: nat) {
    && (if dist == 0 then len == len0
        else len > len0 && dist <= v.window && IsMatch(v.stream, v.pos, dist, len))
    && (v.Ok() && v.pos + 2 < |v.stream| ==> NoneBetter(v, n, len))
  }

  ghost predicate Sought(r: Rules, v: View, pending: Pending, dist: nat, len: nat) {
    if r.raw || (r.rle && v.window == 0) then dist == 0 && len == LenSoFar(pending)
    else if r.rle then IsRun(v, dist, len)
    else IsLongest(v, Looks(r, LenSoFar(pending)), LenSoFar(pending), dist, len)
  }

  /** Matches that are not worth it: of three bytes from far away, or of up to five with TDEFL_FILTER_MATCHES. */
  predicate Dropped(r: Rules, v: View, dist: nat, len: nat) {
    (len == MIN_MATCH_LEN && dist >= 8 * 1024) || v.pos % LZ_DICT_SIZE == dist || (r.filter && len <= 5)
  }

  ghost predicate Picked(r: Rules, v: View, pending: Pending, dist: nat, len: nat) {
    exists dist0, len0 :: PickedFrom(r, v, pending, dist0, len0, dist, len)
  }

  ghost predicate PickedFrom(r: Rules, v: View, pending: Pending, dist0: nat, len0: nat, dist: nat, len: nat) {
    Sought(r, v, pending, dist0, len0) && if Dropped(r, v, dist0, len0) then dist == len == 0 else dist == dist0 && len == len0
  }

  // ---- what is made of it ----

  /** The tokens recorded, what is pending after that, and how far the lookahead moves. */
  datatype Outcome = Outcome(tokens: seq<Token>, pending: Pending, move: nat)

  /** A match is recorded at once if the parser is greedy or the match is long, and else if the next one is not longer. */
  function Decide(r: Rules, pending: Pending, dist: nat, len: nat, lit: Byte): Outcome {
    match pending
    case Waiting(dist0, len0, lit0) =>
      if len <= len0 then Outcome([Match(len0, dist0)], Nothing, if len0 == 0 then 0 else len0 - 1)
      else if len >= 128 then Outcome([Lit(lit0), Match(len, dist)], Nothing, len)
      else Outcome([Lit(lit0)], Waiting(dist, len, lit), 1)
    case Nothing =>
      if dist == 0 then Outcome([Lit(lit)], Nothing, 1)
      else if r.greedy || r.rle || len >= 128 then Outcome([Match(len, dist)], Nothing, len)
      else Outcome([], Waiting(dist, len, lit), 1)
  }

  /**
    A block is sent when the code buffer is nearly full, and also once it stands for more than 31 KB, if it does not get much
    shorter than that or if raw blocks are forced.
   */
  predicate IsDue(raw: bool, ts: seq<Token>) {
    || CodeSize(ts) > LZ_CODE_BUF_SIZE - 8
    || (TokensLen(ts) > 31 * 1024 && (CodeSize(ts) * 115 / 128 >= TokensLen(ts) || raw))
  }

  // ---- runs ----

  /** What a call is given: the stream with all of its input, and whether that is to be parsed to the end. */
  datatype Goal = Goal(whole: seq<Byte>, flushing: bool)

  function Shrunk(window: nat, ahead: int): int {
    if window + ahead <= LZ_DICT_SIZE then window else LZ_DICT_SIZE - ahead
  }

  function Widened(window: nat, move: nat): nat {
    if window + move < LZ_DICT_SIZE then window + move else LZ_DICT_SIZE
  }

  /** More of the input is taken in, as long as the lookahead does not get too long. */
  predicate TakesIn(s: State, t: State, g: Goal) {
    && s.stream <= t.stream <= g.whole && t.Ahead() <= MAX_MATCH_LEN && t.window == Shrunk(s.window, t.Ahead())
    && t == s.(stream := t.stream, window := t.window)
  }

  /** The lookahead is full, or is the last there is. */
  predicate Ready(s: State, g: Goal) {
    s.Ahead() == MAX_MATCH_LEN || (g.flushing && s.stream == g.whole)
  }

  /** The current position is searched once, and what comes of it is recorded. */
  ghost predicate Parses(r: Rules, s: State, t: State) {
    0 <= s.pos < |s.stream| && exists dist, len :: ParsesWith(r, s, t, dist, len)
  }

  ghost predicate ParsesWith(r: Rules, s: State, t: State, dist: nat, len: nat)
    requires s.pos < |s.stream|
  {
    Picked(r, s.Seen(), s.pending, dist, len) && t == After(r, s, Decide(r, s.pending, dist, len, s.stream[s.pos]))
  }

  function After(r: Rules, s: State, o: Outcome): State {
    var ts, due := s.unsent + o.tokens, IsDue(r.raw, s.unsent + o.tokens);
    State(s.stream, s.reset, s.pos + o.move, Widened(s.window, o.move), o.pending,
          if due then s.sent + ts else s.sent, if due then [] else ts)
  }

  /** A run of the parser: each state follows from the one before. */
  ghost predicate Run(r: Rules, trail: seq<State>, g: Goal) {
    trail != [] && forall i :: 0 <= i < |trail| - 1 ==> RunStep(r, trail[i], trail[i + 1], g)
  }

  ghost predicate RunStep(r: Rules, s: State, t: State, g: Goal) {
    TakesIn(s, t, g) || (Ready(s, g) && Parses(r, s, t))
  }

  ghost predicate Leads(r: Rules, trail: seq<State>, s: State, t: State, g: Goal) {
    Run(r, trail, g) && trail[0] == s && trail[|trail| - 1] == t
  }

  lemma LeadsNowhere(r: Rules, s: State, g: Goal)
    ensures Leads(r, [s], s, s, g)
  {
  }

  lemma LeadsOn(r: Rules, trail: seq<State>, s: State, t: State, u: State, g: Goal)
    requires Leads(r, trail, s, t, g) && RunStep(r, t, u, g)
    ensures Leads(r, trail + [u], s, u, g)
  {
    hide RunStep;
  }

  /** There is a run from one state to the other. */
  ghost predicate Runs(r: Rules, s: State, t: State, g: Goal) {
    exists trail :: Leads(r, trail, s, t, g)
  }

  // ---- the fast parser ----

  /** ready: what is ahead was all the lookahead can hold, or is the last there is. */
  datatype FastState = FastState(stream: seq<Byte>, reset: nat, pos: nat, window: nat, hash: seq<nat>, ready: bool,
                                 sent: seq<Token>, unsent: seq<Token>) {
    function Seen(): View { View(stream, reset, pos, window) }
    function Ahead(): int { |stream| - pos }
  }

  /** What the only position looked at is good for: nothing, or a match as long as it goes, up to 258 bytes. */
  ghost predicate FastFinds(v: View, probe: nat, dist: nat, len: nat) {
    var d := Dist16(v.pos, probe);
    if 1 <= d <= v.window && IsMatch(v.stream, v.pos, d, 3) && (d < 8 * 1024 || IsMatch(v.stream, v.pos, d, 4)) then
      dist == d && IsMatch(v.stream, v.pos, d, len) && (len == MAX_MATCH_LEN || !IsMatch(v.stream, v.pos, d, len + 1))
    else dist == 0 && len == 1
  }

  predicate FastTakesIn(s: FastState, t: FastState, g: Goal, max: nat) {
    && s.stream <= t.stream <= g.whole && t.Ahead() <= max && t.window == Shrunk(s.window, t.Ahead())
    && (t.ready ==> t.Ahead() == max || (g.flushing && t.stream == g.whole))
    && t == s.(stream := t.stream, window := t.window, ready := t.ready)
  }

  /** With four bytes ahead, the position that the table has for the next three is looked at; the last bytes are literals. */
  ghost predicate FastParses(s: FastState, t: FastState) {
    && 0 <= s.pos < |s.stream| && |s.hash| == HASH_SIZE && s.ready
    && exists dist, len :: FastParsesWith(s, t, dist, len)
  }

  ghost predicate FastParsesWith(s: FastState, t: FastState, dist: nat, len: nat)
    requires s.pos < |s.stream| && |s.hash| == HASH_SIZE
  {
    if s.Ahead() < 4 then dist == 0 && len == 1 && t == FastAfter(s, 0, 1, s.hash)
    else
      var h := FastHash(s.stream, s.pos);
      FastFinds(s.Seen(), s.hash[h], dist, len) && t == FastAfter(s, dist, len, s.hash[h := s.pos % 65536])
  }

  function FastAfter(s: FastState, dist: nat, len: nat, hash: seq<nat>): FastState
    requires s.pos < |s.stream|
  {
    var ts := s.unsent + [if dist == 0 then Lit(s.stream[s.pos]) else Match(len, dist)];
    var due := CodeSize(ts) > LZ_CODE_BUF_SIZE - 8;
    FastState(s.stream, s.reset, s.pos + len, Widened(s.window, len), hash, s.ready,
              if due then s.sent + ts else s.sent, if due then [] else ts)
  }

  ghost predicate FastRun(trail: seq<FastState>, g: Goal, max: nat) {
    trail != [] && forall i :: 0 <= i < |trail| - 1 ==> FastRunStep(trail[i], trail[i + 1], g, max)
  }

  ghost predicate FastRunStep(s: FastState, t: FastState, g: Goal, max: nat) {
    FastTakesIn(s, t, g, max) || FastParses(s, t)
  }

  ghost predicate FastLeads(trail: seq<FastState>, s: FastState, t: FastState, g: Goal, max: nat) {
    FastRun(trail, g, max) && trail[0] == s && trail[|trail| - 1] == t
  }

  lemma FastLeadsNowhere(s: FastState, g: Goal, max: nat)
    ensures FastLeads([s], s, s, g, max)
  {
  }

  lemma FastLeadsOn(trail: seq<FastState>, s: FastState, t: FastState, u: FastState, g: Goal, max: nat)
    requires FastLeads(trail, s, t, g, max) && FastRunStep(t, u, g, max)
    ensures FastLeads(trail + [u], s, u, g, max)
  {
    hide FastRunStep;
  }

  /** There is a run to this state, whether or not what is ahead there may be parsed. */
  ghost predicate FastRuns(s: FastState, t: FastState, g: Goal, max: nat) {
    exists trail, ready :: FastLeads(trail, s, t.(ready := ready), g, max)
  }
}
