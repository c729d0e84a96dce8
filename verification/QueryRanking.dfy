/** The relevance of a stored word for a search query.

    The estimator fills a table of penalties in place. The table has one row per
    character of the sample and one column per character of the query, so the first
    characters of both words are never compared: what it measures is the distance of
    the two tails. Both words must be non-empty, otherwise the table has no corner. */
module QueryRanking {
  import opened EditDistance

  const PENALTY_FOR_MISMATCH := 20
  const PENALTY_FOR_GAP := 20

  function Tail(s: string): string
    requires s != ""
  {
    s[1..]
  }

  // The penalty the whole table is filled to find
  function RawRanking(sample: string, query: string): nat
    requires sample != "" && query != ""
  {
    20 * Distance(Tail(sample), Tail(query))
  }

  // The relevance, stated on the distance of the tails
  function Relevance(sample: string, query: string): real
    requires sample != "" && query != ""
  {
    var d, m := Distance(Tail(sample), Tail(query)), |query|;
    if m <= d then 0.0 else (m - d) as real / m as real
  }

  // ---------- The estimator ----------

  function MismatchPenalty(x: char, y: char): int {
    if x == y then 0 else PENALTY_FOR_MISMATCH
  }

  function TranslateRanking(query: string, raw: nat): real
    requires query != ""
  {
    var maxPenalty := Min(PENALTY_FOR_GAP, PENALTY_FOR_MISMATCH) * |query|;
    var result := (maxPenalty - raw) as real / maxPenalty as real;
    if result < 0.0 then 0.0 else result
  }

  lemma SignOfProduct(x: real, m: real)
    requires 0.0 < m
    ensures x * m >= 0.0 <==> x >= 0.0
  {
  }

  lemma QuotientUnique(x: real, k: real, m: real)
    requires m != 0.0 && x * m == k
    ensures k / m == x
  {
  }

  lemma ScaledRatio(k: int, m: nat)
    requires 0 < m
    ensures (20 * k) as real / (20 * m) as real == k as real / m as real
  {
    var x := k as real / m as real;
    assert x * m as real == k as real;
    assert x * (20 * m) as real == 20.0 * (x * m as real);
    QuotientUnique(x, (20 * k) as real, (20 * m) as real);
  }

  lemma TranslateIsRelevance(sample: string, query: string)
    requires sample != "" && query != ""
    ensures TranslateRanking(query, RawRanking(sample, query)) == Relevance(sample, query)
  {
    var d, m := Distance(Tail(sample), Tail(query)), |query|;
    ScaledRatio(m - d, m);
    var x := (m - d) as real / m as real;
    assert x * m as real == (m - d) as real;
    SignOfProduct(x, m as real);
    assert Min(PENALTY_FOR_GAP, PENALTY_FOR_MISMATCH) == 20;
    assert TranslateRanking(query, RawRanking(sample, query)) == if x < 0.0 then 0.0 else x;
  }

  // The optimum for the prefix pair that ends at cell (i, j)
  function Cell(sample: string, query: string, i: nat, j: nat): nat
    requires i < |sample| && j < |query|
  {
    20 * Distance(sample[1..i + 1], query[1..j + 1])
  }

  lemma CellStep(sample: string, query: string, i: nat, j: nat)
    requires i < |sample| && j < |query|
    ensures i == 0 ==> Cell(sample, query, i, j) == PENALTY_FOR_GAP * j
    ensures j == 0 ==> Cell(sample, query, i, j) == PENALTY_FOR_GAP * i
    ensures i > 0 && j > 0 ==>
      Cell(sample, query, i, j) ==
      Min(Cell(sample, query, i - 1, j - 1) + MismatchPenalty(sample[i], query[j]),
          Min(Cell(sample, query, i - 1, j) + PENALTY_FOR_GAP, Cell(sample, query, i, j - 1) + PENALTY_FOR_GAP))
  {
    if i > 0 && j > 0 {
      assert Init(sample[1..i + 1]) == sample[1..i] && Last(sample[1..i + 1]) == sample[i];
      assert Init(query[1..j + 1]) == query[1..j] && Last(query[1..j + 1]) == query[j];
    }
  }

  /** Fills the table row by row; every cell ends with the optimum of its own prefix pair. */
  method FillTable(sample: string, query: string) returns (buffer: array2<int>)
    requires sample != "" && query != ""
    ensures fresh(buffer)
    ensures buffer.Length0 == |sample| && buffer.Length1 == |query|
    ensures forall i, j :: 0 <= i < |sample| && 0 <= j < |query| ==> buffer[i, j] == Cell(sample, query, i, j)
  {
    var n, m := |sample|, |query|;
    buffer := new int[n, m]((_, _) => 0);
    for i := 0 to n
      invariant forall k :: 0 <= k < i ==> buffer[k, 0] == PENALTY_FOR_GAP * k
    {
      buffer[i, 0] := PENALTY_FOR_GAP * i;
    }
    for j := 0 to m
      invariant forall k :: 0 <= k < n ==> buffer[k, 0] == PENALTY_FOR_GAP * k
      invariant forall k :: 0 <= k < j ==> buffer[0, k] == PENALTY_FOR_GAP * k
    {
      buffer[0, j] := PENALTY_FOR_GAP * j;
    }
    forall k | 0 <= k < n ensures Cell(sample, query, k, 0) == PENALTY_FOR_GAP * k { CellStep(sample, query, k, 0); }
    forall k | 0 <= k < m ensures Cell(sample, query, 0, k) == PENALTY_FOR_GAP * k { CellStep(sample, query, 0, k); }
    for i := 1 to n
      invariant forall k :: 0 <= k < n ==> buffer[k, 0] == Cell(sample, query, k, 0)
      invariant forall k, l :: 0 <= k < i && 0 <= l < m ==> buffer[k, l] == Cell(sample, query, k, l)
    {
      for j := 1 to m
        invariant forall k :: 0 <= k < n ==> buffer[k, 0] == Cell(sample, query, k, 0)
        invariant forall k, l :: 0 <= k < i && 0 <= l < m ==> buffer[k, l] == Cell(sample, query, k, l)
        invariant forall l :: 0 <= l < j ==> buffer[i, l] == Cell(sample, query, i, l)
      {
        CellStep(sample, query, i, j);
        buffer[i, j] := Min(buffer[i - 1, j - 1] + MismatchPenalty(sample[i], query[j]),
                            Min(buffer[i - 1, j] + PENALTY_FOR_GAP, buffer[i, j - 1] + PENALTY_FOR_GAP));
      }
    }
  }

  method EstimateQueryRanking(sample: string, query: string) returns (ranking: real)
    requires sample != "" && query != ""
    ensures ranking == Relevance(sample, query)
  {
    var buffer := FillTable(sample, query);
    var rawRanking := buffer[|sample| - 1, |query| - 1];
    assert rawRanking == RawRanking(sample, query) by {
      assert sample[1..|sample|] == Tail(sample) && query[1..|query|] == Tail(query);
    }
    TranslateIsRelevance(sample, query);
    ranking := TranslateRanking(query, rawRanking);
  }

  // ---------- What the ranking means ----------

  /** The raw ranking is 20 times the cost of a cheapest script between the tails. */
  lemma RawRankingIsLeastPenalty(sample: string, query: string, raw: nat)
    requires sample != "" && query != ""
    ensures raw == RawRanking(sample, query) <==>
            (exists es :: Rewrites(es, Tail(sample), Tail(query)) && 20 * Cost(es) == raw) &&
            (forall es :: Rewrites(es, Tail(sample), Tail(query)) ==> raw <= 20 * Cost(es))
  {
    var d := Distance(Tail(sample), Tail(query));
    DistanceIsLeastCost(Tail(sample), Tail(query), d);
  }

  /** Leaving out the first characters lowers the edit distance of the words by at most
      one edit, and not at all when the first characters agree. */
  lemma RawRankingOfWholeWords(sample: string, query: string)
    requires sample != "" && query != ""
    ensures RawRanking(sample, query) <= 20 * Distance(sample, query) <= RawRanking(sample, query) + 20
    ensures sample[0] == query[0] ==> 20 * Distance(sample, query) == RawRanking(sample, query)
  {
    var a, b := Tail(sample), Tail(query);
    assert [sample[0]] + a == sample && [query[0]] + b == query;
    DistanceTails(sample[0], a, query[0], b);
    DistancePrepend(sample[0], a, query[0], b);
  }

  /** The raw ranking is a pseudo-metric on words, bounded by the lengths. */
  lemma RawRankingIsPseudoMetric(s: string, q: string, w: string)
    requires s != "" && q != "" && w != ""
    ensures RawRanking(s, q) == RawRanking(q, s)
    ensures RawRanking(s, q) == 0 <==> Tail(s) == Tail(q)
    ensures RawRanking(s, w) <= RawRanking(s, q) + RawRanking(q, w)
    ensures 20 * Max(|s| - |q|, |q| - |s|) <= RawRanking(s, q) <= 20 * (Max(|s|, |q|) - 1)
  {
    DistanceSymmetric(Tail(s), Tail(q));
    DistanceZero(Tail(s), Tail(q));
    DistanceTriangle(Tail(s), Tail(q), Tail(w));
    DistanceBounds(Tail(s), Tail(q));
  }

  lemma RatioOrder(m: nat, c: int, d: int)
    requires 0 < m
    ensures c as real / m as real >= d as real / m as real <==> c >= d
  {
    var x, y := c as real / m as real, d as real / m as real;
    assert x * m as real == c as real && y * m as real == d as real;
    assert (x - y) * m as real == (c - d) as real;
    SignOfProduct(x - y, m as real);
  }

  /** The relevance lies between 0 and 1, and is 1 exactly for equal tails. */
  lemma RelevanceRange(sample: string, query: string)
    requires sample != "" && query != ""
    ensures 0.0 <= Relevance(sample, query) <= 1.0
    ensures Relevance(sample, query) == 1.0 <==> Tail(sample) == Tail(query)
  {
    DistanceZero(Tail(sample), Tail(query));
    RangeOfRatio(Distance(Tail(sample), Tail(query)), |query|);
  }

  lemma RangeOfRatio(d: nat, m: nat)
    requires 0 < m
    ensures var r := if m <= d then 0.0 else (m - d) as real / m as real;
            0.0 <= r <= 1.0 && (r == 1.0 <==> d == 0)
  {
    QuotientUnique(0.0, 0.0, m as real);
    QuotientUnique(1.0, m as real, m as real);
    RatioOrder(m, m - d, 0);
    RatioOrder(m, m - d, m);
    RatioOrder(m, m, m - d);
  }

  /** For one query a word is at least as relevant as another exactly when its tail is at least
      as close, up to distances of the query's length, from where the relevance is zero. */
  lemma RelevanceOrder(s: string, w: string, query: string)
    requires s != "" && w != "" && query != ""
    ensures Relevance(s, query) >= Relevance(w, query) <==>
            RawRanking(s, query) <= RawRanking(w, query) || 20 * |query| <= RawRanking(w, query)
  {
    var c, d, m := Distance(Tail(s), Tail(query)), Distance(Tail(w), Tail(query)), |query|;
    QuotientUnique(0.0, 0.0, m as real);
    RatioOrder(m, m - c, m - d);
    RatioOrder(m, m - c, 0);
    RatioOrder(m, 0, m - d);
  }

  lemma RatioThreshold(m: nat, k: int)
    requires 0 < m
    ensures k as real / m as real >= 0.3 <==> 10 * k >= 3 * m
  {
    var x := k as real / m as real;
    assert x * m as real == k as real;
    assert (x - 0.3) * m as real == k as real - 0.3 * m as real;
    SignOfProduct(x - 0.3, m as real);
  }

  /** The relevance reaches 3/10 exactly when 10 * distance <= 7 * length of the query. */
  lemma RelevanceThreshold(sample: string, query: string)
    requires sample != "" && query != ""
    ensures Relevance(sample, query) >= 0.3 <==> 10 * Distance(Tail(sample), Tail(query)) <= 7 * |query|
  {
    var d, m := Distance(Tail(sample), Tail(query)), |query|;
    RatioThreshold(m, m - d);
  }
}
