/** Similarity search: over-fetching, filtering and stopping early, against the
    plain meaning "the best matches at or above the threshold". */
module Search {
  import opened Basics
  import opened Embeddings

  // A row of the index with its distance to the query; nearest rows come first.
  datatype Hit = Hit(face: FaceId, distance: real) {
    function Similarity(): real { 1.0 - distance }
  }

  ghost predicate Ascending(hits: seq<Hit>) {
    forall i, j | 0 <= i < j < |hits| :: hits[i].distance <= hits[j].distance
  }

  function AtLeast(hits: seq<Hit>, threshold: real): seq<Hit> {
    if hits == [] then []
    else (if hits[0].Similarity() >= threshold then [hits[0]] else []) + AtLeast(hits[1..], threshold)
  }

  function Scored(hits: seq<Hit>): seq<(FaceId, real)> {
    seq(|hits|, i requires 0 <= i < |hits| => (hits[i].face, hits[i].Similarity()))
  }

  /** Among rows in ascending distance the threshold keeps a prefix, so the rows beyond a
      cut can be ignored unless that many rows qualify. */
  lemma {:induction false} AtLeastIsPrefix(hits: seq<Hit>, threshold: real)
    requires Ascending(hits)
    ensures AtLeast(hits, threshold) <= hits
    ensures forall i | 0 <= i < |hits| :: i < |AtLeast(hits, threshold)| <==> hits[i].Similarity() >= threshold
    decreases |hits|
  {
    if hits != [] {
      AtLeastIsPrefix(hits[1..], threshold);
      if hits[0].Similarity() >= threshold {
        assert hits == [hits[0]] + hits[1..];
      } else {
        assert forall i | 0 <= i < |hits[1..]| :: hits[1..][i] == hits[i + 1];
        if hits[1..] != [] { assert hits[1..][0].distance >= hits[0].distance; }
        assert AtLeast(hits[1..], threshold) == [];
      }
    }
  }

  /** Fetching five times the limit loses nothing: filtered and cut, the nearest rows give
      the same answer as the whole store. */
  lemma OverFetchLosesNothing(hits: seq<Hit>, threshold: real, limit: nat)
    requires Ascending(hits)
    ensures First(AtLeast(First(hits, 5 * limit), threshold), limit) == First(AtLeast(hits, threshold), limit)
  {
    var near := First(hits, 5 * limit);
    AtLeastIsPrefix(hits, threshold);
    AtLeastIsPrefix(near, threshold);
    var some, all := AtLeast(near, threshold), AtLeast(hits, threshold);
    if |some| < |near| { assert near[|some|] == hits[|some|]; }
    if |some| > 0 { assert near[|some| - 1] == hits[|some| - 1]; }
    assert some == hits[..|some|] && all == hits[..|all|];
  }

  /** What an answer promises its reader, without mentioning how it is found. */
  ghost predicate BestMatches(answer: seq<Hit>, store: set<Hit>, threshold: real, limit: nat) {
    && |answer| <= limit
    && (forall i | 0 <= i < |answer| :: answer[i] in store && answer[i].Similarity() >= threshold)
    && (forall i, j | 0 <= i < j < |answer| :: answer[i] != answer[j] && answer[i].Similarity() >= answer[j].Similarity())
    // whoever is missing is below the threshold, or crowded out by faces at least as similar
    && (forall hit | hit in store && hit !in answer ::
          hit.Similarity() < threshold
          || (|answer| == limit && forall i | 0 <= i < |answer| :: answer[i].Similarity() >= hit.Similarity()))
  }

  // hits lists every row of the store once, nearest first.
  ghost predicate Ranks(hits: seq<Hit>, store: set<Hit>) {
    && Ascending(hits)
    && (forall i, j | 0 <= i < j < |hits| :: hits[i] != hits[j])
    && (forall hit :: hit in store <==> hit in hits)
  }

  lemma CutOffIsBest(hits: seq<Hit>, store: set<Hit>, threshold: real, limit: nat)
    requires Ranks(hits, store)
    ensures BestMatches(First(AtLeast(hits, threshold), limit), store, threshold, limit)
  {
    AtLeastIsPrefix(hits, threshold);
    var answer := First(AtLeast(hits, threshold), limit);
    assert answer == hits[..|answer|];
    forall hit | hit in store && hit !in answer && hit.Similarity() >= threshold
      ensures |answer| == limit && forall i | 0 <= i < |answer| :: answer[i].Similarity() >= hit.Similarity()
    {
      CutOffIsNearer(hits, threshold, limit, hit);
    }
  }

  lemma CutOffIsNearer(hits: seq<Hit>, threshold: real, limit: nat, hit: Hit)
    requires Ascending(hits) && hit in hits && hit.Similarity() >= threshold
    requires hit !in First(AtLeast(hits, threshold), limit)
    ensures var answer := First(AtLeast(hits, threshold), limit);
            |answer| == limit && forall i | 0 <= i < |answer| :: answer[i].Similarity() >= hit.Similarity()
  {
    AtLeastIsPrefix(hits, threshold);
    var answer := First(AtLeast(hits, threshold), limit);
    var k :| 0 <= k < |hits| && hits[k] == hit;
    assert forall i | 0 <= i < |answer| :: answer[i] == hits[i] && answer[i] in answer;
    assert k >= |answer|;
  }

  /** The two backends may order equal distances differently. Their answers still have the
      same similarities in the same places, and the same faces strictly above the last. */
  lemma AnswersDifferOnlyInTies(a: seq<Hit>, b: seq<Hit>, store: set<Hit>, threshold: real, limit: nat)
    requires Ranks(a, store) && Ranks(b, store)
    ensures var x := First(AtLeast(a, threshold), limit);
            var y := First(AtLeast(b, threshold), limit);
            && |x| == |y|
            && (forall i | 0 <= i < |x| :: x[i].distance == y[i].distance)
            && (forall hit | hit in x && hit.distance < x[|x| - 1].distance :: hit in y)
  {
    SameStoreSameDistances(a, b, store);
    SameNumberQualifies(a, b, threshold);
    AtLeastIsPrefix(a, threshold);
    AtLeastIsPrefix(b, threshold);
    var x, y := First(AtLeast(a, threshold), limit), First(AtLeast(b, threshold), limit);
    var n := |x|;
    assert x == a[..n] && y == b[..n];
    CloserOnesAgree(a, b, store, n);
  }

  /** The interface promises only entries above the threshold, while the loop keeps those at
      it. So the promise is met exactly when none of the rows that compete for a place lies
      at the threshold itself. */
  lemma AboveThresholdExactlyWhen(hits: seq<Hit>, threshold: real, limit: nat)
    requires Ascending(hits)
    ensures var answer := First(AtLeast(hits, threshold), limit);
            (forall i | 0 <= i < |answer| :: answer[i].Similarity() > threshold)
              <==> forall i | 0 <= i < |hits| && i < limit :: hits[i].Similarity() != threshold
  {
    AtLeastIsPrefix(hits, threshold);
    var answer := First(AtLeast(hits, threshold), limit);
    assert forall i | 0 <= i < |answer| :: answer[i] == hits[i];
  }

  // A stored face exactly at the threshold is returned.
  lemma AtThresholdIsReturned(face: FaceId, threshold: real)
    ensures var hits := [Hit(face, 1.0 - threshold)];
            && First(AtLeast(hits, threshold), 1) == hits
            && hits[0].Similarity() == threshold
  {
    assert [Hit(face, 1.0 - threshold)][1..] == [];
  }

  lemma SameNumberQualifies(a: seq<Hit>, b: seq<Hit>, threshold: real)
    requires Ascending(a) && Ascending(b) && |a| == |b|
    requires forall i | 0 <= i < |a| :: a[i].distance == b[i].distance
    ensures |AtLeast(a, threshold)| == |AtLeast(b, threshold)|
  {
    AtLeastIsPrefix(a, threshold);
    AtLeastIsPrefix(b, threshold);
    var p, q := |AtLeast(a, threshold)|, |AtLeast(b, threshold)|;
    if p < |a| { assert a[p].distance == b[p].distance; }
    if q < |b| { assert a[q].distance == b[q].distance; }
  }

  lemma CloserOnesAgree(a: seq<Hit>, b: seq<Hit>, store: set<Hit>, n: nat)
    requires Ranks(a, store) && Ranks(b, store) && n <= |a| && n <= |b|
    requires forall i | 0 <= i < |a| && i < |b| :: a[i].distance == b[i].distance
    ensures forall hit | hit in a[..n] && hit.distance < a[n - 1].distance :: hit in b[..n]
  {
    forall hit | hit in a[..n] && hit.distance < a[n - 1].distance ensures hit in b[..n] {
      assert hit in a;
      assert hit in store;
      var k :| 0 <= k < |b| && b[k] == hit;
      assert k < n;
      assert b[..n][k] == hit;
    }
  }

  lemma SameStoreSameDistances(a: seq<Hit>, b: seq<Hit>, store: set<Hit>)
    requires Ranks(a, store) && Ranks(b, store)
    ensures |a| == |b|
    ensures forall i | 0 <= i < |a| :: a[i].distance == b[i].distance
  {
    NearerCount(a, b, store);
    NearerCount(b, a, store);
  }

  // The k-th of one ranking is no nearer than the k-th of the other.
  lemma NearerCount(a: seq<Hit>, b: seq<Hit>, store: set<Hit>)
    requires Ranks(a, store) && Ranks(b, store)
    ensures |a| <= |b|
    ensures forall i | 0 <= i < |a| && i < |b| :: b[i].distance <= a[i].distance
  {
    SmallerImage(a, b);
    forall i | 0 <= i < |a| && i < |b| ensures b[i].distance <= a[i].distance {
      if b[i].distance > a[i].distance {
        // the first i + 1 of a would all be among the first i of b
        var head, front := a[..i + 1], b[..i];
        forall h | h in head ensures h in front {
          var k :| 0 <= k < |head| && head[k] == h;
          assert h in store;
          var m :| 0 <= m < |b| && b[m] == h;
          assert a[k].distance <= a[i].distance;
          assert m < i;
          assert front[m] == h;
        }
        SmallerImage(head, front);
        assert false;
      }
    }
  }

  lemma {:induction false} SmallerImage(a: seq<Hit>, b: seq<Hit>)
    requires forall i, j | 0 <= i < j < |a| :: a[i] != a[j]
    requires forall h | h in a :: h in b
    ensures |a| <= |b|
    decreases |a|
  {
    if a != [] {
      var n := |a| - 1;
      assert a[n] in a;
      var k :| 0 <= k < |b| && b[k] == a[n];
      var rest := b[..k] + b[k + 1..];
      forall h | h in a[..n] ensures h in rest {
        var i :| 0 <= i < n && a[..n][i] == h;
        assert a[i] == h && h in b;
        var m :| 0 <= m < |b| && b[m] == h;
        assert m != k;
        assert rest[if m < k then m else m - 1] == h;
      }
      SmallerImage(a[..n], rest);
    }
  }

  lemma NextRow(rows: seq<Hit>, threshold: real, i: nat, kept: seq<Hit>)
    requires i < |rows|
    ensures kept + AtLeast(rows[i..], threshold)
         == (if rows[i].Similarity() >= threshold then kept + [rows[i]] else kept) + AtLeast(rows[i + 1..], threshold)
  {
    assert rows[i..][0] == rows[i] && rows[i..][1..] == rows[i + 1..];
  }

  lemma ScoredMore(kept: seq<Hit>, hit: Hit)
    ensures Scored(kept + [hit]) == Scored(kept) + [(hit.face, hit.Similarity())]
  {
  }

  /** The loop over the fetched rows, with its early break. */
  method Collect(rows: seq<Hit>, threshold: real, limit: nat) returns (results: seq<(FaceId, real)>)
    requires limit == 0 ==> rows == []   // no row is fetched then
    ensures results == Scored(First(AtLeast(rows, threshold), limit))
  {
    results := [];
    ghost var kept: seq<Hit> := [];
    for i := 0 to |rows|
      invariant |kept| == 0 || |kept| < limit
      invariant results == Scored(kept)
      invariant kept + AtLeast(rows[i..], threshold) == AtLeast(rows, threshold)
    {
      var row := rows[i];
      NextRow(rows, threshold, i, kept);
      if row.Similarity() >= threshold {
        ScoredMore(kept, row);
        results := results + [(row.face, row.Similarity())];
        kept := kept + [row];
      }
      if |results| >= limit {
        assert First(AtLeast(rows, threshold), |kept|) == kept;
        return;
      }
    }
    assert rows[|rows|..] == [];
    assert kept == AtLeast(rows, threshold);
  }
}
