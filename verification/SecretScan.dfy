/** The streaming secret scan: each chunk is searched together with the last 256 bytes before it. */
module SecretScan {
  import opened Texts

  const OVERLAP: nat := 256

  // ----- the expression -----

  predicate IsUpper(b: Byte) { 65 <= b < 91 }

  const BEGIN: Bytes := [66, 69, 71, 73, 78, 32]
  const PRIVATE_KEY: Bytes := [80, 82, 73, 86, 65, 84, 69, 32, 75, 69, 89]
  const SK_ANT: Bytes := [115, 107, 45, 97, 110, 116, 45]

  /** `BEGIN `, capitals and spaces, `PRIVATE KEY`: of any length. */
  predicate IsKeyHeader(t: Bytes)
  {
    && |BEGIN| + |PRIVATE_KEY| <= |t| && t[..|BEGIN|] == BEGIN && t[|t| - |PRIVATE_KEY|..] == PRIVATE_KEY
    && forall i :: |BEGIN| <= i < |t| - |PRIVATE_KEY| ==> IsUpper(t[i]) || t[i] == 32
  }

  /** `gh`, one of `pousr`, `_` and twenty alphanumerics. */
  predicate IsHubToken(t: Bytes)
  {
    && |t| == 24 && t[0] == 103 && t[1] == 104 && t[2] in {112, 111, 117, 115, 114} && t[3] == 95
    && forall i :: 4 <= i < 24 ==> IsAlphanumeric(t[i])
  }

  /** `sk-ant-` and twenty alphanumerics, underscores or hyphens. */
  predicate IsModelToken(t: Bytes)
  {
    && |t| == 27 && t[..7] == SK_ANT
    && forall i :: 7 <= i < 27 ==> IsAlphanumeric(t[i]) || t[i] == 95 || t[i] == 45
  }

  predicate IsToken(t: Bytes) { IsHubToken(t) || IsModelToken(t) }

  predicate IsSecret(t: Bytes) { IsKeyHeader(t) || IsToken(t) }

  /** `BEGIN `, this middle of capitals and spaces, `PRIVATE KEY`. */
  predicate HeaderWith(t: Bytes, middle: Bytes)
  {
    && t == [66, 69, 71, 73, 78, 32] + middle + [80, 82, 73, 86, 65, 84, 69, 32, 75, 69, 89]
    && forall b :: b in middle ==> b == 32 || 65 <= b <= 90
  }

  predicate HubTokenWith(t: Bytes, kind: Byte, rest: Bytes)
  {
    && t == [103, 104, kind, 95] + rest && |rest| == 20 && kind in {112, 111, 117, 115, 114}
    && forall b :: b in rest ==> IsAlphanumeric(b)
  }

  predicate ModelTokenWith(t: Bytes, rest: Bytes)
  {
    && t == [115, 107, 45, 97, 110, 116, 45] + rest && |rest| == 20
    && forall b :: b in rest ==> IsAlphanumeric(b) || b == 95 || b == 45
  }

  lemma {:induction false} HeaderExactly(t: Bytes)
    ensures IsKeyHeader(t) <==> exists middle :: HeaderWith(t, middle)
  {
    if IsKeyHeader(t) {
      var middle := t[6..|t| - 11];
      assert t == t[..6] + middle + t[|t| - 11..];
      assert HeaderWith(t, middle);
    }
    if middle :| HeaderWith(t, middle) {
      assert t[..6] == BEGIN && t[|t| - 11..] == PRIVATE_KEY;
      assert forall i :: 6 <= i < |t| - 11 ==> t[i] == middle[i - 6] && middle[i - 6] in middle;
    }
  }

  lemma {:induction false} HubTokenExactly(t: Bytes)
    ensures IsHubToken(t) <==> exists kind, rest :: HubTokenWith(t, kind, rest)
  {
    if IsHubToken(t) {
      assert t == [103, 104, t[2], 95] + t[4..];
      assert HubTokenWith(t, t[2], t[4..]);
    }
    if kind, rest :| HubTokenWith(t, kind, rest) {
      assert forall i :: 4 <= i < 24 ==> t[i] == rest[i - 4];
    }
  }

  lemma {:induction false} ModelTokenExactly(t: Bytes)
    ensures IsModelToken(t) <==> exists rest :: ModelTokenWith(t, rest)
  {
    if IsModelToken(t) {
      assert t == t[..7] + t[7..];
      assert ModelTokenWith(t, t[7..]);
    }
    if rest :| ModelTokenWith(t, rest) {
      assert t[..7] == SK_ANT;
      assert forall i :: 7 <= i < 27 ==> t[i] == rest[i - 7];
    }
  }

  /** A secret is a header, or one of two tokens, spelled part by part. */
  lemma {:induction false} SecretExactly(t: Bytes)
    ensures IsSecret(t) <==>
            || (exists middle :: HeaderWith(t, middle))
            || (exists kind, rest :: HubTokenWith(t, kind, rest))
            || (exists rest :: ModelTokenWith(t, rest))
  {
    HeaderExactly(t);
    HubTokenExactly(t);
    ModelTokenExactly(t);
  }

  /** A search: some stretch of `t` matches. */
  predicate Matches(pattern: Bytes -> bool, t: Bytes)
  {
    exists i, j :: 0 <= i <= j <= |t| && pattern(t[i..j])
  }

  // ----- the scan -----

  function Concat(chunks: seq<Bytes>): (t: Bytes)
  {
    if chunks == [] then [] else Concat(chunks[..|chunks| - 1]) + chunks[|chunks| - 1]
  }

  /** At most the last 256 bytes. */
  function Last(t: Bytes): (r: Bytes)
  {
    if |t| <= OVERLAP then t else t[|t| - OVERLAP..]
  }

  /** What is searched with chunk `k`. */
  function Window(chunks: seq<Bytes>, k: nat): (w: Bytes)
    requires k < |chunks|
  {
    Last(Concat(chunks[..k])) + chunks[k]
  }

  predicate Seen(pattern: Bytes -> bool, chunks: seq<Bytes>)
  {
    exists k :: 0 <= k < |chunks| && Matches(pattern, Window(chunks, k))
  }

  lemma {:induction false} LastOfLast(before: Bytes, chunk: Bytes)
    ensures Last(Last(before) + chunk) == Last(before + chunk)
  {
  }

  lemma {:induction false} OverlapMoves(chunks: seq<Bytes>, k: nat)
    requires k < |chunks|
    ensures Last(Window(chunks, k)) == Last(Concat(chunks[..k + 1]))
  {
    assert chunks[..k + 1][..k] == chunks[..k];
    LastOfLast(Concat(chunks[..k]), chunks[k]);
  }

  /** The scan carries its overlap from chunk to chunk, and finds a match exactly if some window has one. */
  method Scan(pattern: Bytes -> bool, chunks: seq<Bytes>) returns (found: bool)
    ensures found <==> Seen(pattern, chunks)
  {
    var overlap: Bytes := [];
    for k := 0 to |chunks|
      invariant overlap == Last(Concat(chunks[..k]))
      invariant forall i :: 0 <= i < k ==> !Matches(pattern, Window(chunks, i))
    {
      var candidate := overlap + chunks[k];
      assert candidate == Window(chunks, k);
      if Matches(pattern, candidate) { return true; }
      overlap := Last(candidate);
      OverlapMoves(chunks, k);
    }
    return false;
  }

  // ----- against the whole stream -----

  lemma {:induction false} ConcatSplits(chunks: seq<Bytes>, k: nat)
    requires k < |chunks|
    ensures |Concat(chunks[..k])| + |chunks[k]| <= |Concat(chunks)|
    ensures Concat(chunks)[..|Concat(chunks[..k])| + |chunks[k]|] == Concat(chunks[..k]) + chunks[k]
    decreases |chunks|
  {
    var n := |chunks| - 1;
    if k == n {
      assert chunks[..n] == chunks[..k];
    } else {
      ConcatSplits(chunks[..n], k);
      assert chunks[..n][..k] == chunks[..k] && chunks[..n][k] == chunks[k];
    }
  }

  /** The window of chunk `k` is the stretch of the stream from 256 bytes before the chunk to its end. */
  lemma {:induction false} WindowIsStretch(chunks: seq<Bytes>, k: nat) returns (from: nat, to: nat)
    requires k < |chunks|
    ensures from <= to <= |Concat(chunks)| && Window(chunks, k) == Concat(chunks)[from..to]
    ensures to == |Concat(chunks[..k])| + |chunks[k]|
    ensures from == if |Concat(chunks[..k])| <= OVERLAP then 0 else |Concat(chunks[..k])| - OVERLAP
  {
    ConcatSplits(chunks, k);
    var before := Concat(chunks[..k]);
    to := |before| + |chunks[k]|;
    from := if |before| <= OVERLAP then 0 else |before| - OVERLAP;
    assert Concat(chunks)[from..to] == Concat(chunks)[..to][from..];
    assert (before + chunks[k])[from..] == before[from..] + chunks[k];
  }

  lemma {:induction false} SliceOfSlice(t: Bytes, from: nat, to: nat, i: nat, j: nat)
    requires from <= to <= |t| && i <= j <= to - from
    ensures t[from..to][i..j] == t[from + i..from + j]
  {
    forall k | 0 <= k < j - i ensures t[from..to][i..j][k] == t[from + i..from + j][k] {
      assert t[from..to][i + k] == t[from + i + k];
    }
  }

  /** The scan reports only what is there. */
  lemma {:induction false} SeenIsThere(pattern: Bytes -> bool, chunks: seq<Bytes>)
    requires Seen(pattern, chunks)
    ensures Matches(pattern, Concat(chunks))
  {
    var k :| 0 <= k < |chunks| && Matches(pattern, Window(chunks, k));
    var i, j :| 0 <= i <= j <= |Window(chunks, k)| && pattern(Window(chunks, k)[i..j]);
    var from, to := WindowIsStretch(chunks, k);
    SliceOfSlice(Concat(chunks), from, to, i, j);
  }

  /** The chunk that holds the byte at `p`. */
  lemma {:induction false} ChunkAt(chunks: seq<Bytes>, p: nat) returns (k: nat)
    requires p < |Concat(chunks)|
    ensures k < |chunks| && |Concat(chunks[..k])| <= p < |Concat(chunks[..k])| + |chunks[k]|
    decreases |chunks|
  {
    var n := |chunks| - 1;
    if p < |Concat(chunks[..n])| {
      k := ChunkAt(chunks[..n], p);
      assert chunks[..n][..k] == chunks[..k];
    } else {
      k := n;
    }
  }

  /**
   * A match of at most 257 bytes is seen however the stream is cut: it lies in the window of the chunk
   * that ends it.
   */
  lemma {:induction false} ShortMatchIsSeen(pattern: Bytes -> bool, chunks: seq<Bytes>, i: nat, j: nat)
    requires i < j <= |Concat(chunks)| && j - i <= OVERLAP + 1 && pattern(Concat(chunks)[i..j])
    ensures Seen(pattern, chunks)
  {
    var k := ChunkAt(chunks, j - 1);
    var from, to := WindowIsStretch(chunks, k);
    SliceOfSlice(Concat(chunks), from, to, i - from, j - from);
    assert Matches(pattern, Window(chunks, k));
  }

  lemma {:induction false} SeenReaches(pattern: Bytes -> bool, chunks: seq<Bytes>) returns (k: nat, i: nat, j: nat)
    requires Seen(pattern, chunks)
    ensures k < |chunks| && Reaches(chunks, k, i, j) && pattern(Concat(chunks)[i..j])
  {
    k :| 0 <= k < |chunks| && Matches(pattern, Window(chunks, k));
    var a, b :| 0 <= a <= b <= |Window(chunks, k)| && pattern(Window(chunks, k)[a..b]);
    var from, to := WindowIsStretch(chunks, k);
    SliceOfSlice(Concat(chunks), from, to, a, b);
    i, j := from + a, from + b;
  }

  lemma {:induction false} ReachedIsSeen(pattern: Bytes -> bool, chunks: seq<Bytes>, k: nat, i: nat, j: nat)
    requires k < |chunks| && Reaches(chunks, k, i, j) && pattern(Concat(chunks)[i..j])
    ensures Seen(pattern, chunks)
  {
    var from, to := WindowIsStretch(chunks, k);
    SliceOfSlice(Concat(chunks), from, to, i - from, j - from);
    assert Matches(pattern, Window(chunks, k));
  }

  /** A match is seen exactly if it lies within a chunk and the 256 bytes before it. */
  lemma {:induction false} SeenExactly(pattern: Bytes -> bool, chunks: seq<Bytes>)
    ensures Seen(pattern, chunks) <==>
            exists k: nat, i: nat, j: nat :: k < |chunks| && Reaches(chunks, k, i, j) && pattern(Concat(chunks)[i..j])
  {
    if Seen(pattern, chunks) {
      var k, i, j := SeenReaches(pattern, chunks);
    }
    if exists k: nat, i: nat, j: nat :: k < |chunks| && Reaches(chunks, k, i, j) && pattern(Concat(chunks)[i..j]) {
      var k: nat, i: nat, j: nat :| k < |chunks| && Reaches(chunks, k, i, j) && pattern(Concat(chunks)[i..j]);
      ReachedIsSeen(pattern, chunks, k, i, j);
    }
  }

  /** The stretch from i to j ends by the end of chunk `k` and starts at most 256 bytes before it. */
  predicate Reaches(chunks: seq<Bytes>, k: nat, i: int, j: int)
    requires k < |chunks|
  {
    0 <= i <= j <= |Concat(chunks[..k])| + |chunks[k]| && j <= |Concat(chunks)| && |Concat(chunks[..k])| <= i + OVERLAP
  }

  /** For a pattern whose matches have 1 to 257 bytes, the scan is a search of the whole stream. */
  lemma {:induction false} BoundedScanIsWhole(pattern: Bytes -> bool, chunks: seq<Bytes>)
    requires forall t :: pattern(t) ==> 1 <= |t| <= OVERLAP + 1
    ensures Seen(pattern, chunks) <==> Matches(pattern, Concat(chunks))
  {
    if Seen(pattern, chunks) { SeenIsThere(pattern, chunks); }
    if Matches(pattern, Concat(chunks)) {
      var i, j :| 0 <= i <= j <= |Concat(chunks)| && pattern(Concat(chunks)[i..j]);
      assert 1 <= |Concat(chunks)[i..j]| <= OVERLAP + 1;
      ShortMatchIsSeen(pattern, chunks, i, j);
    }
  }

  // ----- the secret scan -----

  method ContainsSecret(chunks: seq<Bytes>) returns (found: bool)
    ensures found ==> Matches(t => IsSecret(t), Concat(chunks))
    ensures Matches(t => IsToken(t), Concat(chunks)) ==> found
    ensures (exists i, j ::
              0 <= i < j <= |Concat(chunks)| && j - i <= OVERLAP + 1 &&
              IsSecret(Concat(chunks)[i..j])) ==> found
  {
    found := Scan((t: Bytes) => IsSecret(t), chunks);
    SecretsSeen((t: Bytes) => IsSecret(t), chunks);
  }

  lemma {:induction false} SecretsSeen(pattern: Bytes -> bool, chunks: seq<Bytes>)
    requires forall t :: pattern(t) <==> IsSecret(t)
    ensures Seen(pattern, chunks) ==> Matches(t => IsSecret(t), Concat(chunks))
    ensures Matches(t => IsToken(t), Concat(chunks)) ==> Seen(pattern, chunks)
    ensures (exists i, j ::
              0 <= i < j <= |Concat(chunks)| && j - i <= OVERLAP + 1 &&
              IsSecret(Concat(chunks)[i..j])) ==> Seen(pattern, chunks)
  {
    var t := Concat(chunks);
    if Seen(pattern, chunks) {
      SeenIsThere(pattern, chunks);
      var i, j :| 0 <= i <= j <= |t| && pattern(t[i..j]);
      assert (t => IsSecret(t))(t[i..j]);
    }
    if Matches(t => IsToken(t), t) {
      var i, j :| 0 <= i <= j <= |t| && IsToken(t[i..j]);
      ShortMatchIsSeen(pattern, chunks, i, j);
    }
    if exists i, j :: 0 <= i < j <= |t| && j - i <= OVERLAP + 1 && IsSecret(t[i..j]) {
      var i, j :| 0 <= i < j <= |t| && j - i <= OVERLAP + 1 && IsSecret(t[i..j]);
      ShortMatchIsSeen(pattern, chunks, i, j);
    }
  }

  // ----- what a long key header escapes -----

  function Spaces(n: nat): (t: Bytes) { seq(n, _ => 32) }

  /** A key header whose opening lies more than 256 bytes before the chunk that ends it. */
  function SplitHeader(n: nat): (chunks: seq<Bytes>) { [BEGIN + Spaces(n), PRIVATE_KEY] }

  /** A match starts with B, g or s. */
  lemma {:induction false} SecretStarts(t: Bytes)
    requires IsSecret(t)
    ensures |t| >= 17 && t[0] in {66, 103, 115} && (t[0] == 66 ==> t[|t| - 1] == 89)
  {
    if IsKeyHeader(t) {
      assert t[0] == t[..|BEGIN|][0];
      assert t[|t| - 1] == t[|t| - |PRIVATE_KEY|..][10];
    } else if IsModelToken(t) {
      assert t[0] == t[..7][0];
    }
  }

  lemma {:induction false} SecretAt(t: Bytes, i: nat, j: nat)
    requires i <= j <= |t| && IsSecret(t[i..j])
    ensures i < j && t[i] in {66, 103, 115} && (t[i] == 66 ==> t[j - 1] == 89)
  {
    SecretStarts(t[i..j]);
    assert t[i..j][0] == t[i] && t[i..j][j - i - 1] == t[j - 1];
  }

  /** No stretch of a text matches if none of its bytes could start one, or only a header that never ends. */
  lemma {:induction false} NothingStarts(pattern: Bytes -> bool, t: Bytes)
    requires forall u :: pattern(u) ==> IsSecret(u)
    requires (forall i :: 0 <= i < |t| ==> t[i] !in {66, 103, 115}) ||
             ((forall i :: 0 <= i < |t| ==> t[i] !in {103, 115}) && forall i :: 0 <= i < |t| ==> t[i] != 89)
    ensures !Matches(pattern, t)
  {
    forall i, j | 0 <= i <= j <= |t| ensures !pattern(t[i..j]) {
      if pattern(t[i..j]) { SecretAt(t, i, j); }
    }
  }

  /**
   * The scan is not a whole-stream search for key headers: with 256 spaces or more in the header
   * and a cut before `PRIVATE KEY`, the stream is a match and nothing is reported.
   */
  lemma {:induction false} LongHeaderIsMissed(pattern: Bytes -> bool, n: nat)
    requires n >= OVERLAP && forall u :: pattern(u) <==> IsSecret(u)
    ensures var chunks := SplitHeader(n); pattern(Concat(chunks)) && !Seen(pattern, chunks)
  {
    var chunks := SplitHeader(n);
    var first, second := chunks[0], chunks[1];
    assert chunks[..1] == [first] && chunks[..0] == [];
    ConcatOne(first);
    assert Concat(chunks) == first + second;
    HeaderMatches(n);
    assert Window(chunks, 0) == first && Window(chunks, 1) == Last(first) + second;
    WindowsOfSplit(pattern, n);
  }

  lemma {:induction false} WindowsOfSplit(pattern: Bytes -> bool, n: nat)
    requires n >= OVERLAP && forall u :: pattern(u) ==> IsSecret(u)
    ensures !Matches(pattern, BEGIN + Spaces(n)) && !Matches(pattern, Last(BEGIN + Spaces(n)) + PRIVATE_KEY)
  {
    NothingStarts(pattern, BEGIN + Spaces(n));
    assert Last(BEGIN + Spaces(n)) == Spaces(OVERLAP);
    NothingStarts(pattern, Spaces(OVERLAP) + PRIVATE_KEY);
  }

  lemma {:induction false} ConcatOne(chunk: Bytes)
    ensures Concat([chunk]) == chunk
  {
    var chunks := [chunk];
    assert chunks[..0] == [];
  }

  lemma {:induction false} HeaderMatches(n: nat)
    ensures IsKeyHeader(BEGIN + Spaces(n) + PRIVATE_KEY)
  {
    var t := BEGIN + Spaces(n) + PRIVATE_KEY;
    assert t[..|BEGIN|] == BEGIN;
    assert t[|t| - |PRIVATE_KEY|..] == PRIVATE_KEY;
    assert forall i :: |BEGIN| <= i < |t| - |PRIVATE_KEY| ==> t[i] == Spaces(n)[i - |BEGIN|];
  }
}
