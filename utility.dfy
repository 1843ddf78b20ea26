/**
 * The helpers of app/helpers/utility.py that the log pipeline and the API responses use:
 * packing embeds into webhook calls, searching a list, and the case conversions applied to
 * response keys.
 */
module Utility {
  import opened Wrappers
  import opened PyData
  import opened Embeds

  // chunk_embeds (utility.py:227-245)

  /** Most embeds one webhook call carries. */
  const MAX_EMBEDS_PER_CALL: nat := 10

  /** Total length of a chunk of embeds: the `current_total` of the packing loop. */
  function Size(chunk: seq<Embed>): nat {
    if chunk == [] then 0 else Size(chunk[..|chunk| - 1]) + Len(chunk[|chunk| - 1])
  }

  lemma SizeAppend(chunk: seq<Embed>, e: Embed)
    ensures Size(chunk + [e]) == Size(chunk) + Len(e)
  {
    assert (chunk + [e])[..|chunk|] == chunk;
  }

  /**
   * The packing loop from the state (`current`, `current_total`) onwards over the embeds
   * still to come: the chunks it appends to `result`, the final `current` included.
   */
  function ChunkFrom(embeds: seq<Embed>, current: seq<Embed>, total: int): (r: seq<seq<Embed>>)
    ensures |r| > 0
    decreases |embeds|
  {
    if embeds == [] then [current]
    else
      var t := total + Len(embeds[0]);
      if t > OVERALL_LIMIT || |current| == MAX_EMBEDS_PER_CALL then [current] + ChunkFrom(embeds[1..], [embeds[0]], Len(embeds[0]))
      else ChunkFrom(embeds[1..], current + [embeds[0]], t)
  }

  /** `chunk_embeds(embeds)` as a value. */
  function Chunks(embeds: seq<Embed>): seq<seq<Embed>> {
    ChunkFrom(embeds, [], 0)
  }

  /** Unfolding `ChunkFrom` at position `i` of the embeds. */
  lemma ChunkFromUnfold(embeds: seq<Embed>, i: nat, current: seq<Embed>, total: int)
    requires i < |embeds|
    ensures var t := total + Len(embeds[i]);
            ChunkFrom(embeds[i..], current, total)
            == if t > OVERALL_LIMIT || |current| == MAX_EMBEDS_PER_CALL
               then [current] + ChunkFrom(embeds[i + 1..], [embeds[i]], Len(embeds[i]))
               else ChunkFrom(embeds[i + 1..], current + [embeds[i]], t)
  {
    assert embeds[i..][0] == embeds[i];
    assert embeds[i..][1..] == embeds[i + 1..];
  }

  /** `Utility.chunk_embeds(embeds)`: the greedy single pass of utility.py:234-245. */
  method ChunkEmbeds(embeds: seq<Embed>) returns (result: seq<seq<Embed>>)
    ensures result == Chunks(embeds)
  {
    result := [];
    var current: seq<Embed> := [];
    var currentTotal := 0;
    assert embeds[0..] == embeds;
    for i := 0 to |embeds|
      invariant result + ChunkFrom(embeds[i..], current, currentTotal) == Chunks(embeds)
    {
      ChunkFromUnfold(embeds, i, current, currentTotal);
      var itemSize := Len(embeds[i]);
      currentTotal := currentTotal + itemSize;
      if currentTotal > OVERALL_LIMIT || |current| == MAX_EMBEDS_PER_CALL {
        assert [] + [embeds[i]] == [embeds[i]];
        SeqAssoc(result, [current], ChunkFrom(embeds[i + 1..], [embeds[i]], itemSize));
        result := result + [current];
        currentTotal := itemSize;
        current := [];
      }
      current := current + [embeds[i]];
    }
    assert embeds[|embeds|..] == [];
    result := result + [current];
  }

  /** The state of the packing loop between two embeds. */
  predicate Packing(current: seq<Embed>, total: int) {
    total == Size(current) && |current| <= MAX_EMBEDS_PER_CALL &&
    (|current| <= 1 || Size(current) <= OVERALL_LIMIT)
  }

  function Flatten(chunks: seq<seq<Embed>>): seq<Embed> {
    if chunks == [] then [] else chunks[0] + Flatten(chunks[1..])
  }

  lemma {:induction false} ChunkFromFlatten(embeds: seq<Embed>, current: seq<Embed>, total: int)
    ensures Flatten(ChunkFrom(embeds, current, total)) == current + embeds
    decreases |embeds|
  {
    var r := ChunkFrom(embeds, current, total);
    if embeds == [] {
      assert Flatten(r) == current + Flatten([]);
    } else {
      var t := total + Len(embeds[0]);
      if t > OVERALL_LIMIT || |current| == MAX_EMBEDS_PER_CALL {
        var rest := ChunkFrom(embeds[1..], [embeds[0]], Len(embeds[0]));
        ChunkFromFlatten(embeds[1..], [embeds[0]], Len(embeds[0]));
        assert r[1..] == rest;
        assert Flatten(r) == current + Flatten(rest);
        assert [embeds[0]] + embeds[1..] == embeds;
      } else {
        ChunkFromFlatten(embeds[1..], current + [embeds[0]], t);
        assert current + [embeds[0]] + embeds[1..] == current + embeds;
      }
    }
  }

  /** Nothing is lost, duplicated or reordered: the chunks concatenate back to the input. */
  lemma ChunksFlatten(embeds: seq<Embed>)
    ensures Flatten(Chunks(embeds)) == embeds
  {
    ChunkFromFlatten(embeds, [], 0);
  }

  /** A chunk holds at most 10 embeds, and more than one only when their total is within 6000. */
  ghost predicate ChunkBounded(c: seq<Embed>) {
    |c| <= MAX_EMBEDS_PER_CALL && (|c| <= 1 || Size(c) <= OVERALL_LIMIT)
  }

  lemma {:induction false} ChunkFromBounded(embeds: seq<Embed>, current: seq<Embed>, total: int)
    requires Packing(current, total)
    ensures forall k :: 0 <= k < |ChunkFrom(embeds, current, total)| ==> ChunkBounded(ChunkFrom(embeds, current, total)[k])
    decreases |embeds|
  {
    var r := ChunkFrom(embeds, current, total);
    if embeds != [] {
      var e := embeds[0];
      var t := total + Len(e);
      SizeAppend(current, e);
      if t > OVERALL_LIMIT || |current| == MAX_EMBEDS_PER_CALL {
        SizeAppend([], e);
        assert [] + [e] == [e];
        ChunkFromBounded(embeds[1..], [e], Len(e));
        assert r == [current] + ChunkFrom(embeds[1..], [e], Len(e));
      } else {
        ChunkFromBounded(embeds[1..], current + [e], t);
      }
    }
  }

  /** Every chunk has at most 10 embeds; one of more than 6000 characters is an embed on its own. */
  lemma ChunksBounded(embeds: seq<Embed>)
    ensures forall k :: 0 <= k < |Chunks(embeds)| ==>
              |Chunks(embeds)[k]| <= MAX_EMBEDS_PER_CALL &&
              (|Chunks(embeds)[k]| <= 1 || Size(Chunks(embeds)[k]) <= OVERALL_LIMIT)
  {
    ChunkFromBounded(embeds, [], 0);
  }

  /** When no single embed is over 6000 characters, no chunk is either. */
  lemma ChunksWithinLimit(embeds: seq<Embed>)
    requires forall i :: 0 <= i < |embeds| ==> Len(embeds[i]) <= OVERALL_LIMIT
    ensures forall k :: 0 <= k < |Chunks(embeds)| ==> Size(Chunks(embeds)[k]) <= OVERALL_LIMIT
  {
    var r := Chunks(embeds);
    ChunksBounded(embeds);
    ChunksFlatten(embeds);
    forall k | 0 <= k < |r| ensures Size(r[k]) <= OVERALL_LIMIT {
      if |r[k]| == 1 {
        FlattenHas(r, k, 0);
        assert r[k] == [] + [r[k][0]];
        SizeAppend([], r[k][0]);
      }
    }
  }

  /** Every embed of a chunk occurs in the flattened list. */
  lemma {:induction false} FlattenHas(chunks: seq<seq<Embed>>, k: nat, j: nat)
    requires k < |chunks| && j < |chunks[k]|
    ensures chunks[k][j] in Flatten(chunks)
  {
    if k == 0 {
      assert Flatten(chunks) == chunks[0] + Flatten(chunks[1..]);
      assert Flatten(chunks)[j] == chunks[0][j];
    } else {
      FlattenHas(chunks[1..], k - 1, j);
      assert chunks[1..][k - 1] == chunks[k];
    }
  }

  /** The chunk `next` was opened only because `prev` was full or its first embed did not fit. */
  ghost predicate ClosedBefore(prev: seq<Embed>, next: seq<Embed>) {
    next != [] && (|prev| == MAX_EMBEDS_PER_CALL || Size(prev) + Len(next[0]) > OVERALL_LIMIT)
  }

  /**
   * Greedy packing, from the state `current` onwards: the first chunk extends `current`, every
   * later chunk is non-empty, and a chunk was closed only because it was full or its next
   * embed would have taken it over 6000 characters.
   */
  lemma {:induction false} ChunkFromGreedy(embeds: seq<Embed>, current: seq<Embed>, total: int)
    requires total == Size(current)
    ensures var r := ChunkFrom(embeds, current, total);
            |current| <= |r[0]| && r[0][..|current|] == current &&
            forall k :: 0 < k < |r| ==> ClosedBefore(r[k - 1], r[k])
    decreases |embeds|, 1
  {
    if embeds == [] {
      assert ChunkFrom(embeds, current, total) == [current];
    } else if total + Len(embeds[0]) > OVERALL_LIMIT || |current| == MAX_EMBEDS_PER_CALL {
      GreedyCloses(embeds, current, total);
    } else {
      GreedyExtends(embeds, current, total);
    }
  }

  /** The next embed does not fit: `current` is closed and a chunk holding the embed is opened. */
  lemma {:induction false} GreedyCloses(embeds: seq<Embed>, current: seq<Embed>, total: int)
    requires total == Size(current) && embeds != []
    requires total + Len(embeds[0]) > OVERALL_LIMIT || |current| == MAX_EMBEDS_PER_CALL
    ensures var r := ChunkFrom(embeds, current, total);
            |current| <= |r[0]| && r[0][..|current|] == current &&
            forall k :: 0 < k < |r| ==> ClosedBefore(r[k - 1], r[k])
    decreases |embeds|, 0
  {
    var e := embeds[0];
    SizeAppend([], e);
    assert [] + [e] == [e];
    var rest := ChunkFrom(embeds[1..], [e], Len(e));
    ChunkFromGreedy(embeds[1..], [e], Len(e));
    assert ChunkFrom(embeds, current, total) == [current] + rest;
    assert rest[0][0] == rest[0][..1][0] == e;
    ClosedBeforeCons(current, rest);
  }

  /** The next embed fits: it joins `current`. */
  lemma {:induction false} GreedyExtends(embeds: seq<Embed>, current: seq<Embed>, total: int)
    requires total == Size(current) && embeds != []
    requires !(total + Len(embeds[0]) > OVERALL_LIMIT || |current| == MAX_EMBEDS_PER_CALL)
    ensures var r := ChunkFrom(embeds, current, total);
            |current| <= |r[0]| && r[0][..|current|] == current &&
            forall k :: 0 < k < |r| ==> ClosedBefore(r[k - 1], r[k])
    decreases |embeds|, 0
  {
    var e := embeds[0];
    var t := total + Len(e);
    var r := ChunkFrom(embeds, current, total);
    SizeAppend(current, e);
    assert r == ChunkFrom(embeds[1..], current + [e], t);
    ChunkFromGreedy(embeds[1..], current + [e], t);
    assert r[0][..|current| + 1][..|current|] == r[0][..|current|];
  }

  lemma ClosedBeforeCons(first: seq<Embed>, rest: seq<seq<Embed>>)
    requires |rest| > 0 && ClosedBefore(first, rest[0])
    requires forall k :: 0 < k < |rest| ==> ClosedBefore(rest[k - 1], rest[k])
    ensures var r := [first] + rest;
            forall k :: 0 < k < |r| ==> ClosedBefore(r[k - 1], r[k])
  {
    var r := [first] + rest;
    forall k | 0 < k < |r| ensures ClosedBefore(r[k - 1], r[k]) {
      assert r[k] == rest[k - 1];
      if k > 1 {
        assert r[k - 1] == rest[k - 2];
      }
    }
  }

  /**
   * Greediness of `chunk_embeds`: a chunk is closed only when it holds 10 embeds or the next
   * embed would take it over 6000 characters, and only the first chunk can be empty.
   */
  lemma ChunksGreedy(embeds: seq<Embed>)
    ensures forall k :: 0 < k < |Chunks(embeds)| ==> (Chunks(embeds)[k] != [] &&
              (|Chunks(embeds)[k - 1]| == MAX_EMBEDS_PER_CALL ||
               Size(Chunks(embeds)[k - 1]) + Len(Chunks(embeds)[k][0]) > OVERALL_LIMIT))
  {
    var r := Chunks(embeds);
    ChunkFromGreedy(embeds, [], 0);
    forall k | 0 < k < |r|
      ensures r[k] != [] && (|r[k - 1]| == MAX_EMBEDS_PER_CALL || Size(r[k - 1]) + Len(r[k][0]) > OVERALL_LIMIT)
    {
      assert ClosedBefore(r[k - 1], r[k]);
    }
  }

  /**
   * The first chunk is empty exactly when there is no embed at all, or the first embed alone
   * is over 6000 characters (the leading empty chunk of utility.py:239-240).
   */
  lemma ChunksLeadingEmpty(embeds: seq<Embed>)
    ensures Chunks(embeds)[0] == [] <==> embeds == [] || Len(embeds[0]) > OVERALL_LIMIT
    ensures embeds == [] ==> Chunks(embeds) == [[]]
  {
    if embeds != [] && Len(embeds[0]) <= OVERALL_LIMIT {
      ChunkFromGreedy(embeds[1..], [embeds[0]], Len(embeds[0]));
      assert [] + [embeds[0]] == [embeds[0]];
    }
  }

  /** An embed that fits joins the pending chunk. */
  lemma {:induction false} ChunkFromJoins(embeds: seq<Embed>, current: seq<Embed>)
    requires embeds != [] && |current| < MAX_EMBEDS_PER_CALL
    requires Size(current + [embeds[0]]) <= OVERALL_LIMIT
    ensures ChunkFrom(embeds, current, Size(current))
            == ChunkFrom(embeds[1..], current + [embeds[0]], Size(current + [embeds[0]]))
  {
    var e := embeds[0];
    var t := Size(current) + Len(e);
    SizeAppend(current, e);
    assert !(t > OVERALL_LIMIT || |current| == MAX_EMBEDS_PER_CALL);
    assert ChunkFrom(embeds, current, Size(current)) == ChunkFrom(embeds[1..], current + [e], t);
  }

  /** While the pending chunk has room, the next `m` embeds all join it. */
  lemma {:induction false} ChunkFromFills(embeds: seq<Embed>, current: seq<Embed>, m: nat)
    requires m <= |embeds| && |current| + m <= MAX_EMBEDS_PER_CALL
    requires Size(current + embeds[..m]) <= OVERALL_LIMIT
    ensures ChunkFrom(embeds, current, Size(current)) == ChunkFrom(embeds[m..], current + embeds[..m], Size(current + embeds[..m]))
    decreases m
  {
    if m > 0 {
      var e := embeds[0];
      var rest := embeds[1..];
      assert current + embeds[..m] == (current + [e]) + rest[..m - 1];
      SizePrefix(current + [e], rest[..m - 1]);
      ChunkFromJoins(embeds, current);
      ChunkFromFills(rest, current + [e], m - 1);
      assert rest[m - 1..] == embeds[m..];
    } else {
      assert embeds[0..] == embeds;
      assert current + embeds[..0] == current;
    }
  }

  lemma {:induction false} SizePrefix(a: seq<Embed>, b: seq<Embed>)
    ensures Size(a) <= Size(a + b)
    decreases |b|
  {
    if b == [] {
      assert a + b == a;
    } else {
      var b' := b[..|b| - 1];
      assert (a + b)[..|a + b| - 1] == a + b';
      SizePrefix(a, b');
    }
  }

  lemma {:induction false} SizeUniform(embeds: seq<Embed>, n: nat)
    requires forall i :: 0 <= i < |embeds| ==> Len(embeds[i]) == n
    ensures Size(embeds) == n * |embeds|
    decreases |embeds|
  {
    if embeds != [] {
      SizeUniform(embeds[..|embeds| - 1], n);
      assert n * |embeds| == n * (|embeds| - 1) + n;
    }
  }

  /** Twelve embeds of 500 characters each travel in two calls, of 10 and 2 embeds. */
  lemma ChunksTwelveOfFiveHundred(embeds: seq<Embed>)
    requires |embeds| == 12 && forall i :: 0 <= i < |embeds| ==> Len(embeds[i]) == 500
    ensures Chunks(embeds) == [embeds[..10], embeds[10..]]
  {
    SizeUniform(embeds[..10], 500);
    assert [] + embeds[..10] == embeds[..10];
    ChunkFromFills(embeds, [], 10);
    ChunkFromClosesFull(embeds[10..], embeds[..10], 5000);
  }

  /** A full pending chunk is closed, and two embeds of 500 characters then share the next. */
  lemma {:induction false} ChunkFromClosesFull(rest: seq<Embed>, full: seq<Embed>, total: int)
    requires |rest| == 2 && Len(rest[0]) == 500 && Len(rest[1]) == 500
    requires |full| == MAX_EMBEDS_PER_CALL
    ensures ChunkFrom(rest, full, total) == [full, rest]
  {
    var tail := ChunkFrom(rest[1..], [rest[0]], 500);
    assert ChunkFrom(rest, full, total) == [full] + tail;
    assert rest[1..][0] == rest[1] && rest[1..][1..] == [];
    assert tail == ChunkFrom([], [rest[0]] + [rest[1]], 1000);
    assert [rest[0]] + [rest[1]] == rest;
  }

  // find_first (utility.py:147-165)

  /** The first index from `from` on whose element matches, or -1. */
  function FindFrom<T>(data: seq<T>, matches: T -> bool, from: nat): (i: int)
    requires from <= |data|
    ensures i == -1 || (from <= i < |data| && matches(data[i]))
    ensures forall j :: from <= j < |data| && (i == -1 || j < i) ==> !matches(data[j])
    decreases |data| - from
  {
    if from == |data| then -1
    else if matches(data[from]) then from
    else FindFrom(data, matches, from + 1)
  }

  /** `Utility.find_first(data, match)`: the first match and its index, else (-1, None). */
  function FindFirst<T>(data: seq<T>, matches: T -> bool): (r: (int, Option<T>))
    ensures r.0 == -1 <==> forall j :: 0 <= j < |data| ==> !matches(data[j])
    ensures r.0 == -1 ==> r.1 == None
    ensures r.0 != -1 ==> 0 <= r.0 < |data| && matches(data[r.0]) && r.1 == Some(data[r.0]) &&
                          forall j :: 0 <= j < r.0 ==> !matches(data[j])
  {
    var i := FindFrom(data, matches, 0);
    if i == -1 then (-1, None) else (i, Some(data[i]))
  }

  // to_snake_case (utility.py:31, 222-225)

  /** Length of the longest prefix with no ASCII uppercase letter. */
  function NonUpperRun(s: string): (n: nat)
    ensures n <= |s| && (n < |s| ==> IsUpper(s[n]))
    ensures forall i :: 0 <= i < n ==> !IsUpper(s[i])
  {
    if s == [] || IsUpper(s[0]) then 0 else 1 + NonUpperRun(s[1..])
  }

  /** Length of the longest prefix of ASCII uppercase letters. */
  function UpperRun(s: string): (n: nat)
    ensures n <= |s| && (n < |s| ==> !IsUpper(s[n]))
    ensures forall i :: 0 <= i < n ==> IsUpper(s[i])
  {
    if s == [] || !IsUpper(s[0]) then 0 else 1 + UpperRun(s[1..])
  }

  /**
   * `REGEX_TO_SNAKE_CASE.sub(r"\1_\2", text)` with the pattern `([^A-Z]+)([A-Z]+)`: scanning
   * left to right, a maximal non-uppercase run followed by an uppercase run is rewritten with
   * "_" between them; where no match starts, the character is copied.
   */
  function SnakeSub(s: string): string
    decreases |s|, 1
  {
    if s == [] then []
    else if IsUpper(s[0]) then [s[0]] + SnakeSub(s[1..])
    else
      var n := NonUpperRun(s);
      if n == |s| then s else SnakeMatch(s, n, UpperRun(s[n..]))
  }

  /** One match: the non-uppercase run `s[..n]`, "_", the uppercase run, then the rest. */
  function SnakeMatch(s: string, n: nat, m: nat): string
    requires 0 < n < n + m <= |s|
    decreases |s|, 0
  {
    s[..n] + "_" + s[n..n + m] + SnakeSub(s[n + m..])
  }

  /** `Utility.to_snake_case(text)`: the substitution, then `lower()`. */
  function ToSnakeCase(s: string): string {
    Lower(SnakeSub(s))
  }

  /**
   * The reference reading of `to_snake_case`, character by character: "_" goes before every
   * uppercase letter that follows a non-uppercase character.
   */
  function MarkRuns(s: string, afterNonUpper: bool): string
    decreases |s|
  {
    if s == [] then []
    else (if IsUpper(s[0]) && afterNonUpper then "_" else "") + [s[0]] + MarkRuns(s[1..], !IsUpper(s[0]))
  }

  lemma {:induction false} MarkRunsNonUpper(s: string, n: nat, f: bool)
    requires 0 < n <= |s| && forall i :: 0 <= i < n ==> !IsUpper(s[i])
    ensures MarkRuns(s, f) == s[..n] + MarkRuns(s[n..], true)
    decreases n
  {
    var c := [s[0]];
    assert MarkRuns(s, f) == "" + c + MarkRuns(s[1..], true);
    assert "" + c == c;
    if n > 1 {
      MarkRunsNonUpper(s[1..], n - 1, true);
      assert s[1..][..n - 1] == s[1..n] && s[1..][n - 1..] == s[n..];
      assert s[..n] == c + s[1..n];
      SeqAssoc(c, s[1..n], MarkRuns(s[n..], true));
    } else {
      assert s[..1] == c;
    }
  }

  lemma {:induction false} MarkRunsUpper(s: string, m: nat, f: bool)
    requires 0 < m <= |s| && forall i :: 0 <= i < m ==> IsUpper(s[i])
    ensures MarkRuns(s, f) == (if f then "_" else "") + s[..m] + MarkRuns(s[m..], false)
    decreases m
  {
    var lead: string := if f then "_" else "";
    var c := [s[0]];
    assert MarkRuns(s, f) == lead + c + MarkRuns(s[1..], false);
    if m > 1 {
      MarkRunsUpper(s[1..], m - 1, false);
      assert s[1..][..m - 1] == s[1..m] && s[1..][m - 1..] == s[m..];
      var mid, rest := s[1..m], MarkRuns(s[m..], false);
      assert MarkRuns(s[1..], false) == mid + rest;
      assert s[..m] == c + mid;
      SeqAssoc(lead + c, mid, rest);
      SeqAssoc(lead, c, mid);
    } else {
      assert s[..1] == c;
    }
  }

  /** One match of the pattern, in the character-by-character reading. */
  lemma {:induction false} MarkRunsMatch(s: string, n: nat, m: nat)
    requires 0 < n < n + m <= |s|
    requires forall i :: 0 <= i < n ==> !IsUpper(s[i])
    requires forall i :: n <= i < n + m ==> IsUpper(s[i])
    ensures MarkRuns(s, false) == s[..n] + "_" + s[n..n + m] + MarkRuns(s[n + m..], false)
  {
    MarkRunsNonUpper(s, n, false);
    var t := s[n..];
    MarkRunsUpper(t, m, true);
    assert t[..m] == s[n..n + m] && t[m..] == s[n + m..];
  }

  /** One match of the pattern, in the regex reading. */
  lemma {:induction false} SnakeSubMatch(s: string)
    requires s != [] && !IsUpper(s[0]) && NonUpperRun(s) < |s|
    ensures var n := NonUpperRun(s);
            var m := UpperRun(s[n..]);
            SnakeSub(s) == SnakeMatch(s, n, m)
  {
  }

  /** The regex substitution agrees with the character-by-character reading. */
  lemma {:induction false} SnakeSubMarksRuns(s: string)
    ensures SnakeSub(s) == MarkRuns(s, false)
    decreases |s|
  {
    if s == [] {
    } else if IsUpper(s[0]) {
      SnakeSubMarksRuns(s[1..]);
    } else {
      var n := NonUpperRun(s);
      if n == |s| {
        MarkRunsNonUpper(s, n, false);
        assert s[..n] == s && s[n..] == [];
      } else {
        var m := UpperRun(s[n..]);
        SnakeSubMarksRuns(s[n + m..]);
        SnakeSubMatch(s);
        MatchRuns(s);
        SnakeMatchMarksRuns(s, n, m);
      }
    }
  }

  /** Where a match starts, the two runs are non-empty and lie inside `s`. */
  lemma {:induction false} MatchRuns(s: string)
    requires s != [] && !IsUpper(s[0]) && NonUpperRun(s) < |s|
    ensures var n := NonUpperRun(s);
            var m := UpperRun(s[n..]);
            0 < n < n + m <= |s| && forall i :: n <= i < n + m ==> IsUpper(s[i])
  {
    var n := NonUpperRun(s);
    var m := UpperRun(s[n..]);
    assert n > 0 && m > 0;
    forall i | n <= i < n + m
      ensures IsUpper(s[i])
    {
      assert s[n..][i - n] == s[i];
    }
  }

  /** A match of the pattern, once the rest after it agrees. */
  lemma {:induction false} SnakeMatchMarksRuns(s: string, n: nat, m: nat)
    requires 0 < n < n + m <= |s|
    requires forall i :: 0 <= i < n ==> !IsUpper(s[i])
    requires forall i :: n <= i < n + m ==> IsUpper(s[i])
    requires SnakeSub(s[n + m..]) == MarkRuns(s[n + m..], false)
    ensures SnakeMatch(s, n, m) == MarkRuns(s, false)
  {
    MarkRunsMatch(s, n, m);
  }

  /**
   * `to_snake_case` puts "_" before each uppercase run that follows another character, and
   * leaves no ASCII uppercase letter.
   */
  lemma ToSnakeCaseSpec(s: string)
    ensures ToSnakeCase(s) == Lower(MarkRuns(s, false))
    ensures forall i :: 0 <= i < |ToSnakeCase(s)| ==> !IsUpper(ToSnakeCase(s)[i])
  {
    SnakeSubMarksRuns(s);
  }

  /** Text without uppercase letters is already in snake case. */
  lemma ToSnakeCaseNoUpper(s: string)
    requires forall i :: 0 <= i < |s| ==> !IsUpper(s[i])
    ensures ToSnakeCase(s) == s
  {
    if s != [] {
      assert NonUpperRun(s) == |s|;
    }
  }

  // undo_camel_case (utility.py:30, 265-268)

  /**
   * `REGEX_CAPITALIZED.sub(lambda m: " " + m.group().lower(), text)` with the pattern `[A-Z]+`:
   * every maximal uppercase run becomes a space and the run in lowercase.
   */
  function UndoSub(s: string): string
    decreases |s|
  {
    if s == [] then []
    else if !IsUpper(s[0]) then [s[0]] + UndoSub(s[1..])
    else
      var m := UpperRun(s);
      " " + Lower(s[..m]) + UndoSub(s[m..])
  }

  /** `Utility.undo_camel_case(text)`. */
  function UndoCamelCase(s: string): string {
    UndoSub(s)
  }

  /**
   * The reference reading of `undo_camel_case`, character by character: a space before every
   * uppercase letter that does not follow another one, and every letter in lowercase.
   */
  function SpaceRuns(s: string, afterUpper: bool): string
    decreases |s|
  {
    if s == [] then []
    else (if IsUpper(s[0]) && !afterUpper then " " else "") + [LowerChar(s[0])] + SpaceRuns(s[1..], IsUpper(s[0]))
  }

  lemma {:induction false} SpaceRunsUpper(s: string, m: nat, f: bool)
    requires 0 < m <= |s| && forall i :: 0 <= i < m ==> IsUpper(s[i])
    ensures SpaceRuns(s, f) == (if f then "" else " ") + Lower(s[..m]) + SpaceRuns(s[m..], true)
    decreases m
  {
    var lead: string := if f then "" else " ";
    var c := [LowerChar(s[0])];
    assert SpaceRuns(s, f) == lead + c + SpaceRuns(s[1..], true);
    if m > 1 {
      SpaceRunsUpper(s[1..], m - 1, true);
      assert s[1..][..m - 1] == s[1..m] && s[1..][m - 1..] == s[m..];
      var mid, rest := Lower(s[1..m]), SpaceRuns(s[m..], true);
      assert SpaceRuns(s[1..], true) == mid + rest;
      assert s[..m] == [s[0]] + s[1..m];
      LowerAppend([s[0]], s[1..m]);
      assert Lower(s[..m]) == c + mid;
      SeqAssoc(lead + c, mid, rest);
      SeqAssoc(lead, c, mid);
      assert SpaceRuns(s, f) == lead + Lower(s[..m]) + rest;
    } else {
      assert s[..1] == [s[0]];
      assert Lower(s[..1]) == c;
    }
  }

  /** After a character that is not uppercase, the flag no longer matters. */
  lemma SpaceRunsFlag(s: string, f: bool, g: bool)
    requires s == [] || !IsUpper(s[0])
    ensures SpaceRuns(s, f) == SpaceRuns(s, g)
  {
  }

  /** The regex substitution agrees with the character-by-character reading. */
  lemma {:induction false} UndoSubSpacesRuns(s: string)
    ensures UndoSub(s) == SpaceRuns(s, false)
    decreases |s|
  {
    if s != [] {
      if !IsUpper(s[0]) {
        UndoSubSpacesRuns(s[1..]);
      } else {
        var m := UpperRun(s);
        SpaceRunsUpper(s, m, false);
        SpaceRunsFlag(s[m..], true, false);
        UndoSubSpacesRuns(s[m..]);
      }
    }
  }

  lemma {:induction false} SpaceRunsNoUpper(s: string, f: bool)
    ensures forall i :: 0 <= i < |SpaceRuns(s, f)| ==> !IsUpper(SpaceRuns(s, f)[i])
    decreases |s|
  {
    if s != [] {
      SpaceRunsNoUpper(s[1..], IsUpper(s[0]));
    }
  }

  /**
   * `undo_camel_case` puts a space before each maximal uppercase run and lowercases it; no
   * ASCII uppercase letter is left.
   */
  lemma UndoCamelCaseSpec(s: string)
    ensures UndoCamelCase(s) == SpaceRuns(s, false)
    ensures forall i :: 0 <= i < |UndoCamelCase(s)| ==> !IsUpper(UndoCamelCase(s)[i])
  {
    UndoSubSpacesRuns(s);
    SpaceRunsNoUpper(s, false);
  }

  // camel_case (utility.py:257-263)

  /** The characters of the class `[ \(\)\{\}\[\]-]`. */
  predicate IsSeparator(c: char) {
    c == ' ' || c == '(' || c == ')' || c == '{' || c == '}' || c == '[' || c == ']' || c == '-'
  }

  /** Neither a separator nor "_": what survives in a camel-cased name. */
  predicate IsWordChar(c: char) {
    !IsSeparator(c) && c != '_'
  }

  function SeparatorRun(s: string): (n: nat)
    ensures n <= |s| && (n < |s| ==> !IsSeparator(s[n]))
    ensures forall i :: 0 <= i < n ==> IsSeparator(s[i])
  {
    if s == [] || !IsSeparator(s[0]) then 0 else 1 + SeparatorRun(s[1..])
  }

  /** `re.sub(r"[ \(\)\{\}\[\]-]+", "_", text)`: every maximal run of separators becomes "_". */
  function CollapseSeparators(s: string): (r: string)
    ensures forall i :: 0 <= i < |r| ==> !IsSeparator(r[i])
    decreases |s|
  {
    if s == [] then []
    else if IsSeparator(s[0]) then "_" + CollapseSeparators(s[SeparatorRun(s)..])
    else [s[0]] + CollapseSeparators(s[1..])
  }

  function UnderscoreAt(s: string): (n: nat)
    ensures n <= |s| && (n < |s| ==> s[n] == '_')
    ensures forall i :: 0 <= i < n ==> s[i] != '_'
  {
    if s == [] || s[0] == '_' then 0 else 1 + UnderscoreAt(s[1..])
  }

  /** The pieces joined back with "_". */
  function JoinUnderscore(pieces: seq<string>): string
    requires |pieces| > 0
  {
    if |pieces| == 1 then pieces[0] else pieces[0] + "_" + JoinUnderscore(pieces[1..])
  }

  /** `text.split("_")`: at least one piece, none holding "_", joined back they give the text. */
  function SplitUnderscore(s: string): (pieces: seq<string>)
    ensures |pieces| > 0 && JoinUnderscore(pieces) == s
    ensures forall k, i :: 0 <= k < |pieces| && 0 <= i < |pieces[k]| ==> pieces[k][i] != '_'
    ensures (forall i :: 0 <= i < |s| ==> !IsSeparator(s[i])) ==>
            forall k, i :: 0 <= k < |pieces| && 0 <= i < |pieces[k]| ==> IsWordChar(pieces[k][i])
    decreases |s|
  {
    var n := UnderscoreAt(s);
    if n == |s| then [s]
    else
      var rest := SplitUnderscore(s[n + 1..]);
      assert s[..n] + "_" + s[n + 1..] == s;
      var r := [s[..n]] + rest;
      assert r[1..] == rest;
      r
  }

  /** `str.capitalize` on ASCII letters: the first character in uppercase, the rest in lowercase. */
  function Capitalize(w: string): (r: string)
    ensures |r| == |w|
    ensures w != [] ==> r[0] == UpperChar(w[0]) && forall i :: 1 <= i < |w| ==> r[i] == LowerChar(w[i])
  {
    if w == [] then [] else [UpperChar(w[0])] + Lower(w[1..])
  }

  function CapitalizeAll(pieces: seq<string>): string {
    if pieces == [] then [] else Capitalize(pieces[0]) + CapitalizeAll(pieces[1..])
  }

  /** `Utility.camel_case(text)`. */
  function CamelCase(s: string): string {
    var pieces := SplitUnderscore(CollapseSeparators(s));
    Lower(pieces[0]) + CapitalizeAll(pieces[1..])
  }

  function ConcatAll(pieces: seq<string>): string {
    if pieces == [] then [] else pieces[0] + ConcatAll(pieces[1..])
  }

  /** The text with every separator and every "_" taken out. */
  function WordChars(s: string): (r: string)
    ensures forall i :: 0 <= i < |r| ==> IsWordChar(r[i])
  {
    if s == [] then [] else (if IsWordChar(s[0]) then [s[0]] else []) + WordChars(s[1..])
  }

  lemma {:induction false} WordCharsAppend(a: string, b: string)
    ensures WordChars(a + b) == WordChars(a) + WordChars(b)
    decreases |a|
  {
    if a != [] {
      WordCharsAppend(a[1..], b);
      assert (a + b)[1..] == a[1..] + b;
    } else {
      assert a + b == b;
    }
  }

  lemma {:induction false} WordCharsOfWord(w: string)
    requires forall i :: 0 <= i < |w| ==> IsWordChar(w[i])
    ensures WordChars(w) == w
    decreases |w|
  {
    if w != [] {
      WordCharsOfWord(w[1..]);
    }
  }

  lemma {:induction false} WordCharsCollapse(s: string)
    ensures WordChars(CollapseSeparators(s)) == WordChars(s)
    decreases |s|
  {
    if s != [] {
      if IsSeparator(s[0]) {
        var n := SeparatorRun(s);
        WordCharsCollapse(s[n..]);
        WordCharsAppend("_", CollapseSeparators(s[n..]));
        WordCharsSeparators(s, n);
      } else {
        WordCharsCollapse(s[1..]);
        WordCharsAppend([s[0]], CollapseSeparators(s[1..]));
      }
    }
  }

  lemma {:induction false} WordCharsSeparators(s: string, n: nat)
    requires n <= |s| && forall i :: 0 <= i < n ==> IsSeparator(s[i])
    ensures WordChars(s) == WordChars(s[n..])
    decreases n
  {
    if n > 0 {
      WordCharsSeparators(s[1..], n - 1);
      assert s[1..][n - 1..] == s[n..];
    } else {
      assert s[0..] == s;
    }
  }

  lemma {:induction false} WordCharsJoin(pieces: seq<string>)
    requires |pieces| > 0
    requires forall k, i :: 0 <= k < |pieces| && 0 <= i < |pieces[k]| ==> IsWordChar(pieces[k][i])
    ensures WordChars(JoinUnderscore(pieces)) == ConcatAll(pieces)
    decreases |pieces|
  {
    WordCharsOfWord(pieces[0]);
    if |pieces| == 1 {
      assert ConcatAll(pieces) == pieces[0] + ConcatAll([]);
    } else {
      WordCharsJoin(pieces[1..]);
      WordCharsAppend(pieces[0] + "_", JoinUnderscore(pieces[1..]));
      WordCharsAppend(pieces[0], "_");
    }
  }

  lemma LowerCapitalize(w: string)
    ensures Lower(Capitalize(w)) == Lower(w)
  {
    if w != [] {
      LowerAppend([UpperChar(w[0])], Lower(w[1..]));
      LowerAppend([w[0]], w[1..]);
      assert [w[0]] + w[1..] == w;
      LowerLower(w[1..]);
    }
  }

  lemma LowerLower(w: string)
    ensures Lower(Lower(w)) == Lower(w)
  {
  }

  lemma {:induction false} LowerCapitalizeAll(pieces: seq<string>)
    ensures Lower(CapitalizeAll(pieces)) == Lower(ConcatAll(pieces))
    decreases |pieces|
  {
    if pieces != [] {
      LowerCapitalizeAll(pieces[1..]);
      LowerCapitalize(pieces[0]);
      LowerAppend(Capitalize(pieces[0]), CapitalizeAll(pieces[1..]));
      LowerAppend(pieces[0], ConcatAll(pieces[1..]));
    }
  }

  lemma {:induction false} CapitalizeAllWordChars(pieces: seq<string>)
    requires forall k, i :: 0 <= k < |pieces| && 0 <= i < |pieces[k]| ==> IsWordChar(pieces[k][i])
    ensures forall i :: 0 <= i < |CapitalizeAll(pieces)| ==> IsWordChar(CapitalizeAll(pieces)[i])
    decreases |pieces|
  {
    if pieces != [] {
      CapitalizeAllWordChars(pieces[1..]);
      var w := pieces[0];
      if w != [] {
        assert IsWordChar(w[0]);
        forall i | 0 <= i < |w| - 1 ensures IsWordChar(Lower(w[1..])[i]) {
          assert w[1..][i] == w[i + 1];
        }
      }
    }
  }

  /** The pieces `camel_case` works on: those of the collapsed text, all made of word characters. */
  lemma CamelPieces(s: string)
    ensures var pieces := SplitUnderscore(CollapseSeparators(s));
            forall k, i :: 0 <= k < |pieces| && 0 <= i < |pieces[k]| ==> IsWordChar(pieces[k][i])
  {
  }

  /** `camel_case` output holds no separator and no "_". */
  lemma CamelCaseWordChars(s: string)
    ensures forall i :: 0 <= i < |CamelCase(s)| ==> IsWordChar(CamelCase(s)[i])
  {
    var pieces := SplitUnderscore(CollapseSeparators(s));
    CamelPieces(s);
    CapitalizeAllWordChars(pieces[1..]);
    var first := Lower(pieces[0]);
    assert forall i :: 0 <= i < |first| ==> IsWordChar(first[i]) by {
      forall i | 0 <= i < |first| ensures IsWordChar(first[i]) {
        assert IsWordChar(pieces[0][i]);
      }
    }
    assert CamelCase(s) == first + CapitalizeAll(pieces[1..]);
  }

  /** In lowercase, `camel_case` equals its input with the separators and "_" removed, in lowercase. */
  lemma CamelCaseLower(s: string)
    ensures Lower(CamelCase(s)) == Lower(WordChars(s))
  {
    var pieces := SplitUnderscore(CollapseSeparators(s));
    CamelPieces(s);
    assert CamelCase(s) == Lower(pieces[0]) + CapitalizeAll(pieces[1..]);
    LowerCapitalizeAll(pieces[1..]);
    LowerAppend(Lower(pieces[0]), CapitalizeAll(pieces[1..]));
    LowerLower(pieces[0]);
    LowerAppend(pieces[0], ConcatAll(pieces[1..]));
    assert ConcatAll(pieces) == pieces[0] + ConcatAll(pieces[1..]);
    WordCharsJoin(pieces);
    WordCharsCollapse(s);
  }

  /**
   * The case `camel_case` gives each character: uppercase for a character that directly
   * follows a separator or "_" (it starts a piece after the first), lowercase otherwise.
   */
  function Recased(s: string): (r: string)
    ensures |r| == |s|
  {
    seq(|s|, i requires 0 <= i < |s| => if 0 < i && !IsWordChar(s[i - 1]) then UpperChar(s[i]) else LowerChar(s[i]))
  }

  /** The characters of `r` at the positions where `s` holds a word character, in order. */
  function KeepWord(s: string, r: string): string
    requires |r| == |s|
  {
    if s == [] then [] else (if IsWordChar(s[0]) then [r[0]] else []) + KeepWord(s[1..], r[1..])
  }

  /**
   * The word characters of `s`, recased as they are reached: `afterBreak` says that the
   * previous character was a separator or "_".
   */
  function CaseWords(s: string, afterBreak: bool): string {
    if s == [] then []
    else if IsWordChar(s[0]) then [if afterBreak then UpperChar(s[0]) else LowerChar(s[0])] + CaseWords(s[1..], false)
    else CaseWords(s[1..], true)
  }

  lemma {:induction false} CaseWordsOfWord(w: string, afterBreak: bool)
    requires forall i :: 0 <= i < |w| ==> IsWordChar(w[i])
    ensures CaseWords(w, afterBreak) == if afterBreak then Capitalize(w) else Lower(w)
    decreases |w|
  {
    if w != [] {
      CaseWordsOfWord(w[1..], false);
      assert Lower(w) == [LowerChar(w[0])] + Lower(w[1..]);
    }
  }

  lemma {:induction false} CaseWordsBreak(w: string, rest: string, afterBreak: bool)
    requires forall i :: 0 <= i < |w| ==> IsWordChar(w[i])
    ensures CaseWords(w + "_" + rest, afterBreak) == CaseWords(w, afterBreak) + CaseWords(rest, true)
    decreases |w|
  {
    if w == [] {
      assert w + "_" + rest == "_" + rest;
      assert ("_" + rest)[1..] == rest;
    } else {
      assert (w + "_" + rest)[0] == w[0];
      assert (w + "_" + rest)[1..] == w[1..] + "_" + rest;
      CaseWordsBreak(w[1..], rest, false);
    }
  }

  /** On the pieces of the collapsed text: the first piece in lowercase or capitalised, then every other capitalised. */
  lemma {:induction false} CaseWordsJoin(pieces: seq<string>, afterBreak: bool)
    requires |pieces| > 0
    requires forall k, i :: 0 <= k < |pieces| && 0 <= i < |pieces[k]| ==> IsWordChar(pieces[k][i])
    ensures CaseWords(JoinUnderscore(pieces), afterBreak)
            == (if afterBreak then Capitalize(pieces[0]) else Lower(pieces[0])) + CapitalizeAll(pieces[1..])
    decreases |pieces|
  {
    CaseWordsOfWord(pieces[0], afterBreak);
    if |pieces| == 1 {
      assert CapitalizeAll(pieces[1..]) == [];
    } else {
      var rest := pieces[1..];
      CaseWordsBreak(pieces[0], JoinUnderscore(rest), afterBreak);
      CaseWordsJoin(rest, true);
      assert CapitalizeAll(rest) == Capitalize(rest[0]) + CapitalizeAll(rest[1..]);
    }
  }

  lemma {:induction false} CaseWordsSeparators(s: string, n: nat, afterBreak: bool)
    requires 0 < n <= |s| && forall i :: 0 <= i < n ==> IsSeparator(s[i])
    ensures CaseWords(s, afterBreak) == CaseWords(s[n..], true)
    decreases n
  {
    if n > 1 {
      CaseWordsSeparators(s[1..], n - 1, true);
      assert s[1..][n - 1..] == s[n..];
    }
  }

  /** Collapsing separator runs into "_" changes no character's case. */
  lemma {:induction false} CaseWordsCollapse(s: string, afterBreak: bool)
    ensures CaseWords(CollapseSeparators(s), afterBreak) == CaseWords(s, afterBreak)
    decreases |s|
  {
    if s != [] {
      if IsSeparator(s[0]) {
        var n := SeparatorRun(s);
        CaseWordsCollapse(s[n..], true);
        assert ("_" + CollapseSeparators(s[n..]))[1..] == CollapseSeparators(s[n..]);
        CaseWordsSeparators(s, n, afterBreak);
      } else {
        var c := [s[0]] + CollapseSeparators(s[1..]);
        assert c[0] == s[0] && c[1..] == CollapseSeparators(s[1..]);
        CaseWordsCollapse(s[1..], !IsWordChar(s[0]));
      }
    }
  }

  lemma {:induction false} CaseWordsRecased(s: string, i: nat)
    requires i <= |s|
    ensures CaseWords(s[i..], 0 < i && !IsWordChar(s[i - 1])) == KeepWord(s[i..], Recased(s)[i..])
    decreases |s| - i
  {
    if i < |s| {
      CaseWordsRecased(s, i + 1);
      assert s[i..][0] == s[i] && s[i..][1..] == s[i + 1..];
      assert Recased(s)[i..][0] == Recased(s)[i] && Recased(s)[i..][1..] == Recased(s)[i + 1..];
    }
  }

  /**
   * `camel_case` keeps the word characters of its input in order, each in uppercase when it
   * directly follows a separator or "_" (it starts a piece after the first) and in
   * lowercase otherwise.
   */
  lemma CamelCaseRecased(s: string)
    ensures CamelCase(s) == KeepWord(s, Recased(s))
  {
    var pieces := SplitUnderscore(CollapseSeparators(s));
    CamelPieces(s);
    CaseWordsJoin(pieces, false);
    CaseWordsCollapse(s, false);
    CaseWordsRecased(s, 0);
    assert s[0..] == s && Recased(s)[0..] == Recased(s);
  }

  // to_camel (utility.py:202-220)

  /** A dict comprehension over key/value pairs: a repeated key ends with its last value. */
  function FromPairs(pairs: Dict): (r: Dict)
    ensures DistinctKeys(r)
    ensures forall k :: HasKey(r, k) <==> HasKey(pairs, k)
    ensures |r| <= |pairs|
    ensures forall i :: 0 <= i < |r| ==> r[i] in pairs
  {
    if pairs == [] then []
    else
      var last := pairs[|pairs| - 1];
      var prev := pairs[..|pairs| - 1];
      assert pairs == prev + [last];
      HasKeySnoc(prev, last);
      DictSet(FromPairs(prev), last.0, last.1)
  }

  /** A key takes the value of its last pair. */
  lemma {:induction false} FromPairsLastWins(pairs: Dict, i: nat)
    requires i < |pairs| && forall j :: i < j < |pairs| ==> pairs[j].0 != pairs[i].0
    ensures HasKey(FromPairs(pairs), pairs[i].0) && Get(FromPairs(pairs), pairs[i].0) == pairs[i].1
    decreases |pairs|
  {
    var prev := pairs[..|pairs| - 1];
    var last := pairs[|pairs| - 1];
    assert FromPairs(pairs) == DictSet(FromPairs(prev), last.0, last.1);
    if i < |pairs| - 1 {
      LaterKeysPrefix(pairs, i);
      FromPairsLastWins(prev, i);
    }
  }

  /** The uniqueness asked of pair `i` carries over to the pairs without the last one. */
  lemma LaterKeysPrefix(pairs: Dict, i: nat)
    requires i < |pairs| - 1 && forall j :: i < j < |pairs| ==> pairs[j].0 != pairs[i].0
    ensures var prev := pairs[..|pairs| - 1];
            prev[i] == pairs[i] && pairs[|pairs| - 1].0 != pairs[i].0 &&
            forall j :: i < j < |prev| ==> prev[j].0 != prev[i].0
  {
  }

  /** `Utility.to_camel(data)`. */
  function ToCamel(v: Value): (r: Value)
    ensures v.VList? || v.VTuple? ==> r.VList? && |r.items| == |v.items|
    ensures v.VList? || v.VTuple? ==> forall i :: 0 <= i < |v.items| ==> r.items[i] == ToCamel(v.items[i])
    ensures v.VDict? ==> r.VDict? && DistinctKeys(r.entries) && |r.entries| <= |v.entries|
    ensures !v.VList? && !v.VTuple? && !v.VDict? ==> r == v
    decreases v
  {
    match v
    case VList(items) => VList(seq(|items|, i requires 0 <= i < |items| => ToCamel(items[i])))
    case VTuple(items) => VList(seq(|items|, i requires 0 <= i < |items| => ToCamel(items[i])))
    case VDict(entries) =>
      VDict(FromPairs(seq(|entries|, i requires 0 <= i < |entries| => (CamelCase(entries[i].0), ToCamel(entries[i].1)))))
    case _ => v
  }

  /** No later entry of `entries` has a name that camel-cases to the same key as entry `i`. */
  ghost predicate LastRenamed(entries: Dict, i: nat)
    requires i < |entries|
  {
    forall j :: i < j < |entries| ==> CamelCase(entries[j].0) != CamelCase(entries[i].0)
  }

  /**
   * The dict case of `to_camel`: the keys are exactly the camel-cased input keys, and each
   * holds the converted value of the last entry whose key camel-cases to it.
   */
  lemma ToCamelDictEntries(entries: Dict)
    ensures var r := ToCamel(VDict(entries)).entries;
            (forall i :: 0 <= i < |entries| ==> HasKey(r, CamelCase(entries[i].0))) &&
            (forall k :: HasKey(r, k) ==> exists i :: 0 <= i < |entries| && CamelCase(entries[i].0) == k) &&
            forall i :: 0 <= i < |entries| && LastRenamed(entries, i) ==>
              Get(r, CamelCase(entries[i].0)) == ToCamel(entries[i].1)
  {
    var mapped := seq(|entries|, i requires 0 <= i < |entries| => (CamelCase(entries[i].0), ToCamel(entries[i].1)));
    assert ToCamel(VDict(entries)) == VDict(FromPairs(mapped));
    RenamedKeys(entries, mapped);
    RenamedValues(entries, mapped);
  }

  /** The keys of the renamed dict are the renamed input keys. */
  lemma RenamedKeys(entries: Dict, mapped: Dict)
    requires |mapped| == |entries|
    requires forall k :: 0 <= k < |mapped| ==> mapped[k].0 == CamelCase(entries[k].0)
    ensures forall i :: 0 <= i < |entries| ==> HasKey(FromPairs(mapped), CamelCase(entries[i].0))
    ensures forall k :: HasKey(FromPairs(mapped), k) ==> exists i :: 0 <= i < |entries| && CamelCase(entries[i].0) == k
  {
    forall i | 0 <= i < |entries| ensures HasKey(mapped, CamelCase(entries[i].0)) {
      assert Keys(mapped)[i] == CamelCase(entries[i].0);
    }
    forall k | HasKey(mapped, k) ensures exists i :: 0 <= i < |entries| && CamelCase(entries[i].0) == k {
      var i :| 0 <= i < |mapped| && Keys(mapped)[i] == k;
      assert CamelCase(entries[i].0) == k;
    }
  }

  /** Each renamed key holds the converted value of the last entry renamed to it. */
  lemma RenamedValues(entries: Dict, mapped: Dict)
    requires |mapped| == |entries|
    requires forall k :: 0 <= k < |mapped| ==> mapped[k] == (CamelCase(entries[k].0), ToCamel(entries[k].1))
    ensures forall i :: 0 <= i < |entries| && LastRenamed(entries, i) ==>
              HasKey(FromPairs(mapped), CamelCase(entries[i].0)) &&
              Get(FromPairs(mapped), CamelCase(entries[i].0)) == ToCamel(entries[i].1)
  {
    forall i | 0 <= i < |entries| && LastRenamed(entries, i)
      ensures HasKey(FromPairs(mapped), CamelCase(entries[i].0)) &&
              Get(FromPairs(mapped), CamelCase(entries[i].0)) == ToCamel(entries[i].1)
    {
      forall j | i < j < |mapped| ensures mapped[j].0 != mapped[i].0 {
        assert CamelCase(entries[j].0) != CamelCase(entries[i].0);
      }
      FromPairsLastWins(mapped, i);
    }
  }

  /** Every dict key, at any depth, holds no separator and no "_". */
  ghost predicate CamelKeys(v: Value)
    decreases v
  {
    match v
    case VList(items) => forall i :: 0 <= i < |items| ==> CamelKeys(items[i])
    case VTuple(items) => forall i :: 0 <= i < |items| ==> CamelKeys(items[i])
    case VDict(entries) => forall i :: 0 <= i < |entries| ==> CamelName(entries[i].0) && CamelKeys(entries[i].1)
    case _ => true
  }

  /** A name with no separator and no "_". */
  ghost predicate CamelName(k: string) {
    forall j :: 0 <= j < |k| ==> IsWordChar(k[j])
  }

  /** The dict case of `ToCamelKeys`, given that it holds for every value. */
  lemma {:induction false} ToCamelDictKeys(entries: Dict)
    requires forall i :: 0 <= i < |entries| ==> CamelKeys(ToCamel(entries[i].1))
    ensures CamelKeys(ToCamel(VDict(entries)))
  {
    var mapped := seq(|entries|, i requires 0 <= i < |entries| => (CamelCase(entries[i].0), ToCamel(entries[i].1)));
    var r := FromPairs(mapped);
    assert ToCamel(VDict(entries)) == VDict(r);
    forall i | 0 <= i < |r| ensures CamelName(r[i].0) && CamelKeys(r[i].1) {
      MappedEntryCamel(entries, mapped, r[i]);
    }
  }

  /** One renamed entry has a camel-case name and a value with camel-case keys. */
  lemma MappedEntryCamel(entries: Dict, mapped: Dict, e: (string, Value))
    requires forall i :: 0 <= i < |entries| ==> CamelKeys(ToCamel(entries[i].1))
    requires |mapped| == |entries|
    requires forall k :: 0 <= k < |mapped| ==> mapped[k] == (CamelCase(entries[k].0), ToCamel(entries[k].1))
    requires e in mapped
    ensures CamelName(e.0) && CamelKeys(e.1)
  {
    var k :| 0 <= k < |mapped| && mapped[k] == e;
    CamelCaseWordChars(entries[k].0);
  }

  /** `to_camel` camel-cases every dict key at every depth. */
  lemma {:induction false} ToCamelKeys(v: Value)
    ensures CamelKeys(ToCamel(v))
    decreases v
  {
    match v
    case VList(items) =>
      forall i | 0 <= i < |items| ensures CamelKeys(ToCamel(items[i])) {
        ToCamelKeys(items[i]);
      }
    case VTuple(items) =>
      forall i | 0 <= i < |items| ensures CamelKeys(ToCamel(items[i])) {
        ToCamelKeys(items[i]);
      }
    case VDict(entries) =>
      forall i | 0 <= i < |entries| ensures CamelKeys(ToCamel(entries[i].1)) {
        ToCamelKeys(entries[i].1);
      }
      ToCamelDictKeys(entries);
    case _ =>
  }
}
