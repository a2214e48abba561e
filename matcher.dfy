/** The fingerprint matcher of chromaprint_matcher: for one song, the
    destination song whose duration is close enough and whose Chromaprint
    fingerprint differs in the fewest bits. A score at the immediate
    threshold ends the search; otherwise the best score at the partial
    threshold wins. */
module Matcher {
  import opened Wrappers

  /** A song as the matcher sees it: the decoded fingerprint, one 32-bit
      word per frame, and the duration in seconds. */
  datatype Song = Song(fingerprint: seq<bv32>, duration: int)

  datatype MatchParams = MatchParams(maxMatchDurationDiff: int, matchImmediateThreshold: real, matchPartialThreshold: real)

  const DefaultMaxMatchDurationDiff: int := 5
  const DefaultMatchImmediateThreshold: real := 0.98
  const DefaultMatchPartialThreshold: real := 0.98

  /** `MatchParams::default()` */
  function DefaultParams(): (p: MatchParams)
    ensures p.maxMatchDurationDiff == 5 && p.matchImmediateThreshold == 0.98 && p.matchPartialThreshold == 0.98
  {
    MatchParams(DefaultMaxMatchDurationDiff, DefaultMatchImmediateThreshold, DefaultMatchPartialThreshold)
  }

  // ---------------------------------------------------------------------
  // The score

  /** The set bits among the lowest `n` bits of `x`. */
  function PopCountLow(x: bv32, n: nat): (r: nat)
    requires n <= 32
    ensures r <= n
  {
    if n == 0 then 0 else (if x & 1 == 1 then 1 else 0) + PopCountLow(x >> 1, n - 1)
  }

  /** `count_ones` */
  function PopCount(x: bv32): (r: nat)
    ensures r <= 32
  {
    PopCountLow(x, 32)
  }

  lemma {:induction false} PopCountLowZero(n: nat)
    requires n <= 32
    ensures PopCountLow(0, n) == 0
  {
    if n > 0 {
      assert (0 as bv32) >> 1 == 0;
      PopCountLowZero(n - 1);
    }
  }

  function Min(a: int, b: int): int {
    if a <= b then a else b
  }

  /** The bits that differ between the first `n` words of the two prints. */
  function ErrorUpTo(p: seq<bv32>, q: seq<bv32>, n: nat): (r: nat)
    requires n <= |p| && n <= |q|
    ensures r <= 32 * n
  {
    if n == 0 then 0 else ErrorUpTo(p, q, n - 1) + PopCount(p[n - 1] ^ q[n - 1])
  }

  /** The error over the words the two prints have in common (`zip` stops
      at the shorter one). */
  function Error(p: seq<bv32>, q: seq<bv32>): nat {
    ErrorUpTo(p, q, Min(|p|, |q|))
  }

  /** `min(len, len).max(1)` */
  function MinLen(p: seq<bv32>, q: seq<bv32>): (r: nat)
    ensures r >= 1
  {
    if Min(|p|, |q|) > 1 then Min(|p|, |q|) else 1
  }

  /** `1.0 - error / 32.0 / min_len`, over the reals. */
  function Score(song: Song, dst: Song): real {
    1.0 - (Error(song.fingerprint, dst.fingerprint) as real) / 32.0 / (MinLen(song.fingerprint, dst.fingerprint) as real)
  }

  /** The score lies between 0 and 1, and is 1 exactly when the common
      words agree bit for bit. */
  lemma ScoreBounds(song: Song, dst: Song)
    ensures 0.0 <= Score(song, dst) <= 1.0
    ensures Score(song, dst) == 1.0 <==> Error(song.fingerprint, dst.fingerprint) == 0
  {
    var e := Error(song.fingerprint, dst.fingerprint);
    var m := MinLen(song.fingerprint, dst.fingerprint);
    RatioBounds(e as real, m as real);
  }

  /** `e / 32 / m` is a fraction when `e` is at most `32 * m`, and zero
      only when `e` is. */
  lemma RatioBounds(e: real, m: real)
    requires 1.0 <= m && 0.0 <= e <= 32.0 * m
    ensures 0.0 <= e / 32.0 / m <= 1.0
    ensures e / 32.0 / m == 0.0 <==> e == 0.0
  {
    var q := e / 32.0;
    assert 0.0 <= q <= m;
    var r := q / m;
    assert r * m == q;
  }

  /** Equal prints differ in no bit. */
  lemma {:induction false} SamePrintNoError(p: seq<bv32>, n: nat)
    requires n <= |p|
    ensures ErrorUpTo(p, p, n) == 0
  {
    if n > 0 {
      SamePrintNoError(p, n - 1);
      assert p[n - 1] ^ p[n - 1] == 0;
      PopCountLowZero(32);
    }
  }

  /** A song with the same print scores 1. */
  lemma SamePrintScoresOne(song: Song, dst: Song)
    requires song.fingerprint == dst.fingerprint
    ensures Score(song, dst) == 1.0
  {
    SamePrintNoError(song.fingerprint, |song.fingerprint|);
  }

  // ---------------------------------------------------------------------
  // Selection

  function Abs(x: int): nat {
    if x < 0 then -x else x
  }

  /** The durations differ by no more than the allowed difference. */
  predicate InWindow(song: Song, dst: Song, params: MatchParams) {
    Abs(song.duration - dst.duration) <= params.maxMatchDurationDiff
  }

  /** A candidate that ends the search at once. */
  predicate Immediate(song: Song, dst: Song, params: MatchParams) {
    InWindow(song, dst, params) && Score(song, dst) >= params.matchImmediateThreshold
  }

  /** A candidate that can become the best partial match: at the partial
      threshold and above the initial best score of 0. */
  predicate Partial(song: Song, dst: Song, params: MatchParams) {
    InWindow(song, dst, params) && Score(song, dst) >= params.matchPartialThreshold && Score(song, dst) > 0.0
  }

  /** The inner loop: the error summed over the zipped words. */
  method ComputeError(p: seq<bv32>, q: seq<bv32>) returns (error: nat)
    ensures error == Error(p, q)
  {
    error := 0;
    var n := if |p| <= |q| then |p| else |q|;
    for i := 0 to n
      invariant error == ErrorUpTo(p, q, i)
    {
      error := error + PopCount(p[i] ^ q[i]);
    }
  }

  /** The score of one destination, through the inner loop. */
  method ComputeScore(song: Song, dst: Song) returns (score: real)
    ensures score == Score(song, dst)
  {
    var error := ComputeError(song.fingerprint, dst.fingerprint);
    var minLen := MinLen(song.fingerprint, dst.fingerprint);
    score := 1.0 - (error as real) / 32.0 / (minLen as real);
  }

  /** Candidate `k` is the first immediate one. */
  predicate FirstImmediate(song: Song, dsts: seq<Song>, params: MatchParams, k: nat) {
    && k < |dsts|
    && Immediate(song, dsts[k], params)
    && forall j :: 0 <= j < k ==> !Immediate(song, dsts[j], params)
  }

  /** Candidate `k` has the best partial score among the first `n`,
      strictly better than every partial candidate before it. */
  predicate BestPartialAmong(song: Song, dsts: seq<Song>, params: MatchParams, k: nat, n: nat) {
    && k < n <= |dsts|
    && Partial(song, dsts[k], params)
    && (forall j :: 0 <= j < n && Partial(song, dsts[j], params) ==> Score(song, dsts[j]) <= Score(song, dsts[k]))
    && (forall j :: 0 <= j < k && Partial(song, dsts[j], params) ==> Score(song, dsts[j]) < Score(song, dsts[k]))
  }

  predicate BestPartial(song: Song, dsts: seq<Song>, params: MatchParams, k: nat) {
    BestPartialAmong(song, dsts, params, k, |dsts|)
  }

  /** `find_fingerprint_match`: the index of the chosen destination and
      its score. The first immediate candidate wins; failing one, the best
      partial candidate, the earliest among equals; failing that, none
      and a score of 0. */
  method FindFingerprintMatch(song: Song, dstSongs: seq<Song>, params: MatchParams) returns (bestMatch: Option<nat>, bestScore: real)
    ensures bestMatch.Some? ==> bestMatch.value < |dstSongs| && bestScore == Score(song, dstSongs[bestMatch.value])
    ensures (exists j :: 0 <= j < |dstSongs| && Immediate(song, dstSongs[j], params)) ==>
              bestMatch.Some? && FirstImmediate(song, dstSongs, params, bestMatch.value)
    ensures (forall j :: 0 <= j < |dstSongs| ==> !Immediate(song, dstSongs[j], params)) ==>
              bestMatch.Some? ==> BestPartial(song, dstSongs, params, bestMatch.value)
    ensures bestMatch.None? ==> bestScore == 0.0
    ensures bestMatch.None? ==> forall j :: 0 <= j < |dstSongs| ==> !Immediate(song, dstSongs[j], params) && !Partial(song, dstSongs[j], params)
  {
    bestScore := 0.0;
    bestMatch := None;
    for i := 0 to |dstSongs|
      invariant forall j :: 0 <= j < i ==> !Immediate(song, dstSongs[j], params)
      invariant bestMatch.None? ==> bestScore == 0.0 && forall j :: 0 <= j < i ==> !Partial(song, dstSongs[j], params)
      invariant bestMatch.Some? ==> bestMatch.value < i && bestScore == Score(song, dstSongs[bestMatch.value])
      invariant bestMatch.Some? ==> BestPartialAmong(song, dstSongs, params, bestMatch.value, i)
    {
      var dstSong := dstSongs[i];
      if Abs(song.duration - dstSong.duration) > params.maxMatchDurationDiff {
        continue;
      }
      var score := ComputeScore(song, dstSong);
      if score >= params.matchImmediateThreshold {
        return Some(i), score;
      } else if score >= params.matchPartialThreshold && score > bestScore {
        bestScore := score;
        bestMatch := Some(i);
      }
    }
  }

  /** The contract of `FindFingerprintMatch` pins its answer down: at most
      one candidate is the first immediate one, and at most one is the
      best partial one. */
  lemma SelectionDeterminate(song: Song, dsts: seq<Song>, params: MatchParams, k1: nat, k2: nat)
    ensures FirstImmediate(song, dsts, params, k1) && FirstImmediate(song, dsts, params, k2) ==> k1 == k2
    ensures BestPartial(song, dsts, params, k1) && BestPartial(song, dsts, params, k2) ==> k1 == k2
  {
  }

  /** With the default parameters the two thresholds coincide, so every
      candidate the partial rule could take is taken at once. */
  lemma DefaultsNeverPartial(song: Song, dst: Song)
    requires Partial(song, dst, DefaultParams())
    ensures Immediate(song, dst, DefaultParams())
  {
  }
}
