/** The `query` command's own logic: every stored record is scored against
    the query vector, the (score, document) pairs are sorted by descending
    score with a stable sort, and the first `top_k` are kept. The similarity
    function is opaque; its result is a real number or NaN. */
module Ranking {
  import opened Prelude
  import opened Embedding

  /** A similarity score: a number, or NaN (what the cosine of a zero-norm
      vector gives). */
  datatype Score = Num(value: real) | NaN

  /** A scored document, as held in the vector being sorted. */
  datatype Ranked = Ranked(score: Score, document: string)

  /** `x` ranks at or above `y`; NaN is comparable with nothing. */
  predicate Geq(x: Score, y: Score)
  {
    x.Num? && y.Num? && x.value >= y.value
  }

  /** `x` ranks strictly above `y`. */
  predicate Gt(x: Score, y: Score)
  {
    x.Num? && y.Num? && x.value > y.value
  }

  /** The comparator `b.0.partial_cmp(&a.0).unwrap()` succeeds on every
      pair a sort of `s` can ask about: with fewer than two elements no pair
      is compared, otherwise every element is compared at least once. */
  predicate Comparable(s: seq<Ranked>)
  {
    |s| <= 1 || forall k :: 0 <= k < |s| ==> s[k].score.Num?
  }

  predicate SortedDesc(s: seq<Ranked>)
  {
    forall k, l :: 0 <= k < l < |s| ==> Geq(s[k].score, s[l].score)
  }

  /** The records of `s` whose score is `x`, in their order in `s`. */
  function WithScore(s: seq<Ranked>, x: Score): seq<Ranked>
  {
    if s == [] then [] else (if s[0].score == x then [s[0]] else []) + WithScore(s[1..], x)
  }

  /** `t` keeps the relative order of the records of `s` among every group of
      equal scores: what a stable sort keeps. */
  ghost predicate SameTies(t: seq<Ranked>, s: seq<Ranked>)
  {
    forall x :: WithScore(t, x) == WithScore(s, x)
  }

  /** `t` is the stable descending sort of `s`. */
  ghost predicate IsRanking(s: seq<Ranked>, t: seq<Ranked>)
  {
    SortedDesc(t) && multiset(t) == multiset(s) && SameTies(t, s)
  }

  // ---------------------------------------------------------------------
  // Facts about WithScore
  // ---------------------------------------------------------------------

  lemma {:induction false} WithScoreAppend(s: seq<Ranked>, t: seq<Ranked>, x: Score)
    ensures WithScore(s + t, x) == WithScore(s, x) + WithScore(t, x)
  {
    if s == [] {
      assert s + t == t;
    } else {
      var h := if s[0].score == x then [s[0]] else [];
      assert (s + t)[0] == s[0] && (s + t)[1..] == s[1..] + t;
      WithScoreAppend(s[1..], t, x);
      assert WithScore(s + t, x) == h + WithScore(s[1..] + t, x);
      assert WithScore(s, x) == h + WithScore(s[1..], x);
    }
  }

  lemma {:induction false} WithScoreMember(s: seq<Ranked>, x: Score, e: Ranked)
    requires e in WithScore(s, x)
    ensures e in s && e.score == x
  {
    if s[0] == e && s[0].score == x {
    } else {
      WithScoreMember(s[1..], x, e);
    }
  }

  /** The first record of a sequence is in the group of its own score. */
  lemma HeadInOwnGroup(s: seq<Ranked>)
    ensures s != [] ==> WithScore(s, s[0].score) != []
  {
  }

  /** Swapping two neighbours with different scores keeps every tie group. */
  lemma SwapKeepsTies(s: seq<Ranked>, j: nat)
    requires 0 < j < |s| && s[j - 1].score != s[j].score
    ensures SameTies(s[j - 1 := s[j]][j := s[j - 1]], s)
    ensures multiset(s[j - 1 := s[j]][j := s[j - 1]]) == multiset(s)
  {
    var t := s[j - 1 := s[j]][j := s[j - 1]];
    var pre, post := s[..j - 1], s[j + 1..];
    assert s == pre + [s[j - 1], s[j]] + post;
    assert t == pre + [s[j], s[j - 1]] + post;
    forall x
      ensures WithScore(t, x) == WithScore(s, x)
    {
      WithScoreAppend(pre + [s[j - 1], s[j]], post, x);
      WithScoreAppend(pre, [s[j - 1], s[j]], x);
      WithScoreAppend(pre + [s[j], s[j - 1]], post, x);
      WithScoreAppend(pre, [s[j], s[j - 1]], x);
      assert WithScore([s[j - 1], s[j]], x) == WithScore([s[j], s[j - 1]], x);
    }
  }

  /** Tie groups kept twice are kept overall. */
  lemma TiesTransitive(r: seq<Ranked>, s: seq<Ranked>, t: seq<Ranked>)
    requires SameTies(r, s) && SameTies(s, t)
    ensures SameTies(r, t)
  {
  }

  /** Rearranging the records keeps them comparable. */
  lemma ComparablePermutation(s: seq<Ranked>, t: seq<Ranked>)
    requires Comparable(s) && multiset(t) == multiset(s)
    ensures Comparable(t)
  {
    if |t| > 1 {
      forall k | 0 <= k < |t|
        ensures t[k].score.Num?
      {
        assert t[k] in multiset(s);
      }
    }
  }

  /** Determinism: two descending orders of the same records with the same
      tie groups are one and the same sequence. */
  lemma {:induction false} TiesDetermineOrder(t1: seq<Ranked>, t2: seq<Ranked>)
    requires SortedDesc(t1) && SortedDesc(t2) && SameTies(t1, t2)
    ensures t1 == t2
    decreases |t1|
  {
    if t1 == [] && t2 == [] {
    } else if t1 == [] {
      HeadInOwnGroup(t2);
      assert false;
    } else if t2 == [] {
      HeadInOwnGroup(t1);
      assert false;
    } else {
      SameHead(t1, t2);
      TailTies(t1, t2);
      TiesDetermineOrder(t1[1..], t2[1..]);
      assert t1 == [t1[0]] + t1[1..] && t2 == [t2[0]] + t2[1..];
    }
  }

  /** Two descending orders with the same tie groups start with the same
      record: each head is in the other's group of its score, so neither
      score is above the other, and within that group the order is shared. */
  lemma SameHead(t1: seq<Ranked>, t2: seq<Ranked>)
    requires t1 != [] && t2 != []
    requires SortedDesc(t1) && SortedDesc(t2) && SameTies(t1, t2)
    ensures t1[0] == t2[0]
  {
    var x, y := t1[0].score, t2[0].score;
    assert t2[0] in WithScore(t1, y) by {
      assert WithScore(t2, y)[0] == t2[0];
    }
    WithScoreMember(t1, y, t2[0]);
    var i :| 0 <= i < |t1| && t1[i] == t2[0];
    assert t1[0] in WithScore(t2, x) by {
      assert WithScore(t1, x)[0] == t1[0];
    }
    WithScoreMember(t2, x, t1[0]);
    var j :| 0 <= j < |t2| && t2[j] == t1[0];
    if i != 0 && j != 0 {
      assert Geq(x, y) && Geq(y, x);
    }
    assert x == y;
    assert WithScore(t1, x)[0] == t1[0];
    assert WithScore(t2, x)[0] == t2[0];
  }

  /** Sequences with a common head and the same tie groups have tails with
      the same tie groups. */
  lemma TailTies(t1: seq<Ranked>, t2: seq<Ranked>)
    requires t1 != [] && t2 != [] && t1[0] == t2[0] && SameTies(t1, t2)
    ensures SameTies(t1[1..], t2[1..])
  {
    var x := t1[0].score;
    forall z
      ensures WithScore(t1[1..], z) == WithScore(t2[1..], z)
    {
      assert WithScore(t1, z) == WithScore(t2, z);
      if z == x {
        assert WithScore(t1[1..], z) == WithScore(t1, z)[1..];
        assert WithScore(t2[1..], z) == WithScore(t2, z)[1..];
      } else {
        assert WithScore(t1, z) == WithScore(t1[1..], z);
        assert WithScore(t2, z) == WithScore(t2[1..], z);
      }
    }
  }

  /** A sequence has at most one stable descending sort. */
  lemma RankingUnique(s: seq<Ranked>, t1: seq<Ranked>, t2: seq<Ranked>)
    requires IsRanking(s, t1) && IsRanking(s, t2)
    ensures t1 == t2
  {
    TiesDetermineOrder(t1, t2);
  }

  /** Three records A, B, C scoring 1, 0 and 0.7 against the query rank as
      A, C, B, so the top two are A and C. */
  lemma ThreeRecordExample(t: seq<Ranked>)
    requires IsRanking([Ranked(Num(1.0), "A"), Ranked(Num(0.0), "B"), Ranked(Num(0.7), "C")], t)
    ensures t[..2] == [Ranked(Num(1.0), "A"), Ranked(Num(0.7), "C")]
  {
    var a, b, c := Ranked(Num(1.0), "A"), Ranked(Num(0.0), "B"), Ranked(Num(0.7), "C");
    OutOfOrderLast(a, b, c);
    RankingUnique([a, b, c], t, [a, c, b]);
  }

  /** Three records whose last two are out of order rank with those two
      swapped. */
  lemma OutOfOrderLast(a: Ranked, b: Ranked, c: Ranked)
    requires Gt(a.score, c.score) && Gt(c.score, b.score)
    ensures IsRanking([a, b, c], [a, c, b])
  {
    SwapLastTwo(a, b, c);
    assert forall k, l :: 0 <= k < l < 3 ==> Geq([a, c, b][k].score, [a, c, b][l].score);
  }

  /** Swapping the last two of three records with different scores keeps
      the records and their tie groups. */
  lemma SwapLastTwo(a: Ranked, b: Ranked, c: Ranked)
    requires b.score != c.score
    ensures SameTies([a, c, b], [a, b, c]) && multiset([a, c, b]) == multiset([a, b, c])
  {
    var s := [a, b, c];
    SwapKeepsTies(s, 2);
    assert s[1 := s[2]][2 := s[1]] == [a, c, b];
  }

  // ---------------------------------------------------------------------
  // Scoring, sorting, taking the top k
  // ---------------------------------------------------------------------

  /** Scores every stored record against the query and pairs the score with
      the record's own document, in store order. */
  function ScoreAll<V>(store: seq<Record<V>>, query: V, score: (V, V) -> Score): (r: seq<Ranked>)
    ensures |r| == |store|
    ensures forall i :: 0 <= i < |store| ==>
              r[i] == Ranked(score(query, store[i].vector), store[i].document)
  {
    if store == [] then []
    else [Ranked(score(query, store[0].vector), store[0].document)] + ScoreAll(store[1..], query, score)
  }

  /** The scored store is comparable exactly when it has at most one record
      or no record scores NaN. */
  lemma ComparableScores<V>(store: seq<Record<V>>, query: V, score: (V, V) -> Score)
    ensures Comparable(ScoreAll(store, query, score)) <==>
              !(|store| >= 2 && exists i :: 0 <= i < |store| && score(query, store[i].vector).NaN?)
  {
    var scored := ScoreAll(store, query, score);
    if |store| >= 2 && exists i :: 0 <= i < |store| && score(query, store[i].vector).NaN? {
      var i :| 0 <= i < |store| && score(query, store[i].vector).NaN?;
      assert !scored[i].score.Num?;
    }
  }

  /** `sort_by` with the descending comparator: a stable in-place sort
      (insertion sort: an element moves left only past strictly lower
      scores). */
  method SortByScore(a: array<Ranked>)
    requires Comparable(a[..])
    modifies a
    ensures IsRanking(old(a[..]), a[..])
  {
    var i := 0;
    while i < a.Length
      invariant 0 <= i <= a.Length
      invariant forall k, l :: 0 <= k < l < i ==> Geq(a[k].score, a[l].score)
      invariant multiset(a[..]) == multiset(old(a[..]))
      invariant SameTies(a[..], old(a[..]))
    {
      ghost var before := a[..];
      ComparablePermutation(old(a[..]), before);
      InsertAt(a, i);
      TiesTransitive(a[..], before, old(a[..]));
      i := i + 1;
    }
    assert a[..] == a[..a.Length];
  }

  /** `s[..i + 1]` is sorted except for `s[j]`, which scores strictly higher
      than everything after it up to `i`: the state while `s[j]` moves left. */
  ghost predicate Inserting(s: seq<Ranked>, i: nat, j: nat)
    requires j <= i < |s|
  {
    && (forall k, l :: 0 <= k < l <= i && k != j && l != j ==> Geq(s[k].score, s[l].score))
    && (forall l :: j < l <= i ==> Gt(s[j].score, s[l].score))
  }

  lemma InsertingSwap(s: seq<Ranked>, i: nat, j: nat)
    requires 0 < j <= i < |s| && Inserting(s, i, j) && Gt(s[j].score, s[j - 1].score)
    ensures Inserting(s[j - 1 := s[j]][j := s[j - 1]], i, j - 1)
  {
  }

  lemma InsertingDone(s: seq<Ranked>, i: nat, j: nat)
    requires j <= i < |s| && Inserting(s, i, j)
    requires j > 0 ==> Geq(s[j - 1].score, s[j].score)
    ensures forall k, l :: 0 <= k < l <= i ==> Geq(s[k].score, s[l].score)
  {
    forall k, l | 0 <= k < l <= i
      ensures Geq(s[k].score, s[l].score)
    {
      if l == j && k < j - 1 {
        assert Geq(s[k].score, s[j - 1].score);
      }
    }
  }

  /** One step of the insertion sort: moves `a[i]` left into the sorted
      prefix `a[..i]`, past the records that score strictly lower. */
  method InsertAt(a: array<Ranked>, i: nat)
    requires i < a.Length && Comparable(a[..])
    requires forall k, l :: 0 <= k < l < i ==> Geq(a[k].score, a[l].score)
    modifies a
    ensures forall k, l :: 0 <= k < l <= i ==> Geq(a[k].score, a[l].score)
    ensures multiset(a[..]) == multiset(old(a[..]))
    ensures SameTies(a[..], old(a[..]))
    ensures a[i + 1..] == old(a[i + 1..])
  {
    var j := i;
    while j > 0 && Gt(a[j].score, a[j - 1].score)
      invariant 0 <= j <= i
      invariant a[i + 1..] == old(a[i + 1..])
      invariant multiset(a[..]) == multiset(old(a[..]))
      invariant SameTies(a[..], old(a[..]))
      invariant Inserting(a[..], i, j)
    {
      ghost var before := a[..];
      SwapKeepsTies(before, j);
      InsertingSwap(before, i, j);
      a[j - 1], a[j] := a[j], a[j - 1];
      assert a[..] == before[j - 1 := before[j]][j := before[j - 1]];
      TiesTransitive(a[..], before, old(a[..]));
      j := j - 1;
    }
    if j > 0 {
      ComparablePermutation(old(a[..]), a[..]);
      assert a[j - 1].score.Num? && a[j].score.Num?;
    }
    InsertingDone(a[..], i, j);
  }

  /** Scoring, sorting and `take(top_k)`. The comparator panics, and so the
      query fails, exactly when at least two records are scored and one score
      is NaN. `ranking` is the whole sorted vector before truncation. */
  method Rank<V>(store: seq<Record<V>>, query: V, topK: nat, score: (V, V) -> Score)
    returns (r: Result<seq<Ranked>>, ghost ranking: seq<Ranked>)
    ensures r.Err? <==> |store| >= 2 && exists i :: 0 <= i < |store| && score(query, store[i].vector).NaN?
    ensures r.Err? ==> r.error == ScoresNotComparable
    ensures r.Ok? ==> IsRanking(ScoreAll(store, query, score), ranking)
    ensures r.Ok? ==> |r.value| == Min(topK, |store|) && r.value == ranking[..|r.value|]
    ensures r.Ok? ==> SortedDesc(r.value)
    ensures r.Ok? ==> multiset(r.value) <= multiset(ScoreAll(store, query, score))
    ensures r.Ok? && topK >= |store| ==> multiset(r.value) == multiset(ScoreAll(store, query, score))
    ensures r.Ok? ==> forall i, j :: 0 <= i < |r.value| <= j < |ranking| ==>
              Geq(r.value[i].score, ranking[j].score)
  {
    var scored := ScoreAll(store, query, score);
    ComparableScores(store, query, score);
    if !Comparable(scored) {
      return Err(ScoresNotComparable), [];
    }
    var sorted := SortedCopy(scored);
    var n := Min(topK, |sorted|);
    TopOfRanking(scored, sorted, n);
    r, ranking := Ok(sorted[..n]), sorted;
  }

  /** The stable descending sort of `s`, computed by copying `s` into a fresh
      array and sorting that array in place. */
  method SortedCopy(s: seq<Ranked>) returns (t: seq<Ranked>)
    requires Comparable(s)
    ensures |t| == |s| && IsRanking(s, t)
  {
    var a := new Ranked[|s|](i requires 0 <= i < |s| => s[i]);
    assert a[..] == s;
    SortByScore(a);
    t := a[..];
  }

  /** The first `n` records of a ranking: still sorted, taken from the
      ranked records, all of them when `n` is the whole length, and each
      scoring at least as high as every record left out. */
  lemma TopOfRanking(s: seq<Ranked>, t: seq<Ranked>, n: nat)
    requires IsRanking(s, t) && n <= |t|
    ensures SortedDesc(t[..n])
    ensures multiset(t[..n]) <= multiset(s)
    ensures n == |t| ==> multiset(t[..n]) == multiset(s)
    ensures forall i, j :: 0 <= i < n <= j < |t| ==> Geq(t[..n][i].score, t[j].score)
  {
    assert t == t[..n] + t[n..];
    assert multiset(t) == multiset(t[..n]) + multiset(t[n..]);
  }

  /** The `query` command after the store is read: embed the query text, take
      the first vector the model returns, and rank the store against it. */
  method QueryCommand<V>(store: seq<Record<V>>, query: string, topK: nat,
                         embed: seq<string> -> Option<seq<V>>, score: (V, V) -> Score)
    returns (r: Result<seq<Ranked>>)
    ensures embed([query]).None? ==> r == Err(EmbeddingError)
    ensures embed([query]) == Some([]) ==> r == Err(NoQueryEmbedding)
    ensures embed([query]).Some? && embed([query]).value != [] ==>
              var scored := ScoreAll(store, embed([query]).value[0], score);
              (r.Err? <==> !Comparable(scored))
              && (r.Err? ==> r.error == ScoresNotComparable)
              && (r.Ok? ==> |r.value| == Min(topK, |store|)
                            && exists t: seq<Ranked> :: IsRanking(scored, t) && |r.value| <= |t| && r.value == t[..|r.value|]
                                && forall i, j :: 0 <= i < |r.value| <= j < |t| ==>
                                     Geq(r.value[i].score, t[j].score))
  {
    var embedded := embed([query]);
    if embedded.None? {
      return Err(EmbeddingError);
    }
    if embedded.value == [] {
      return Err(NoQueryEmbedding);
    }
    ghost var ranking;
    r, ranking := Rank(store, embedded.value[0], topK, score);
  }
}
