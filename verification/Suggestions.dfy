/** Suggestions across clusters: for every clustered face, similar faces that were put
    into another cluster. */
module Suggestions {
  import opened Basics
  import opened Embeddings
  import Search

  datatype Labelled = Labelled(face: FaceId, cluster: int)

  datatype Match = Match(face: FaceId, confidence: real)

  datatype Suggestion = Suggestion(face: FaceId, suggested: FaceId, confidence: real)

  const NOISE := -1

  // {fid: label for fid, label in results}: a later entry replaces an earlier one
  function LabelsOf(results: seq<Labelled>): map<FaceId, int> {
    if results == [] then map[]
    else var n := |results| - 1; LabelsOf(results[..n])[results[n].face := results[n].cluster]
  }

  function VectorsOf(embeddings: seq<(FaceId, Vector)>): map<FaceId, Vector> {
    if embeddings == [] then map[]
    else var n := |embeddings| - 1; VectorsOf(embeddings[..n])[embeddings[n].0 := embeddings[n].1]
  }

  // The results of a similarity search.
  function Matches(hits: seq<Search.Hit>): seq<Match> {
    seq(|hits|, i requires 0 <= i < |hits| => Match(hits[i].face, hits[i].Similarity()))
  }

  /** All that stays fixed during one call. `nearest` lists the rows of the store by their
      distance to a vector. */
  datatype Context = Context(
    labels: map<FaceId, int>,
    vectors: map<FaceId, Vector>,
    nearest: Vector -> seq<Search.Hit>,
    valid: set<FaceId>,
    threshold: real,
    perFace: int
  ) {
    // Ten more than wanted are asked for.
    function Headroom(): nat {
      if perFace + 10 >= 0 then perFace + 10 else 0
    }

    // The whole store at or above the threshold ...
    function AllMatches(v: Vector): seq<Match> {
      Matches(Search.AtLeast(nearest(v), threshold))
    }

    // ... and what the search returns of it.
    function Found(v: Vector): seq<Match> {
      First(AllMatches(v), Headroom())
    }

    predicate Qualifies(m: Match, cluster: int) {
      m.face in valid && m.face in labels && labels[m.face] != cluster && labels[m.face] != NOISE
    }

    function Qualifying(matches: seq<Match>, cluster: int): seq<Match> {
      if matches == [] then []
      else
        var n := |matches| - 1;
        Qualifying(matches[..n], cluster) + (if Qualifies(matches[n], cluster) then [matches[n]] else [])
    }

    // How many suggestions a face still gets: at least one, as the limit is looked at
    // only after one was added.
    function Quota(already: nat): nat {
      if perFace - already >= 1 then perFace - already else 1
    }

    // What one entry contributes after others.
    function Contribution(entry: Labelled, before: seq<Suggestion>): seq<Suggestion> {
      if entry.cluster == NOISE || entry.face !in vectors then []
      else
        Suggest(entry.face, First(Qualifying(Found(vectors[entry.face]), entry.cluster), Quota(CountFor(before, entry.face))))
    }

    function Contributions(results: seq<Labelled>): seq<Suggestion> {
      if results == [] then []
      else
        var n := |results| - 1;
        var before := Contributions(results[..n]);
        before + Contribution(results[n], before)
    }
  }

  function Suggest(face: FaceId, matches: seq<Match>): seq<Suggestion> {
    seq(|matches|, i requires 0 <= i < |matches| => Suggestion(face, matches[i].face, matches[i].confidence))
  }

  // [s for s in suggestions if s.face_id == face_id]
  function For(suggestions: seq<Suggestion>, face: FaceId): seq<Suggestion> {
    if suggestions == [] then []
    else
      var n := |suggestions| - 1;
      For(suggestions[..n], face) + (if suggestions[n].face == face then [suggestions[n]] else [])
  }

  function CountFor(suggestions: seq<Suggestion>, face: FaceId): nat {
    |For(suggestions, face)|
  }

  /** The inner loop, for one face: the number of suggestions the face has is counted anew
      over the whole list after each one is added. */
  method SuggestFor(ctx: Context, face: FaceId, cluster: int, matches: seq<Match>, before: seq<Suggestion>)
    returns (suggestions: seq<Suggestion>)
    ensures suggestions
         == before + Suggest(face, First(ctx.Qualifying(matches, cluster), ctx.Quota(CountFor(before, face))))
  {
    suggestions := before;
    ghost var found: seq<Match> := [];
    assert Suggest(face, found) == [];
    for j := 0 to |matches|
      invariant found == ctx.Qualifying(matches[..j], cluster)
      invariant suggestions == before + Suggest(face, found)
      invariant |found| < ctx.Quota(CountFor(before, face))
    {
      var m := matches[j];
      assert matches[..j + 1][..j] == matches[..j];
      QualifyingPrefix(ctx, matches, j + 1, cluster);
      if m.face !in ctx.valid {
        continue;
      }
      if m.face in ctx.labels && ctx.labels[m.face] != cluster && ctx.labels[m.face] != NOISE {
        found := found + [m];
        suggestions := suggestions + [Suggestion(face, m.face, m.confidence)];
        assert suggestions == before + Suggest(face, found);
        CountAppended(before, face, found);
        if CountFor(suggestions, face) >= ctx.perFace {
          assert First(ctx.Qualifying(matches, cluster), |found|) == found;
          return;
        }
      }
    }
    assert matches[..|matches|] == matches;
  }

  /** Searches the store as every caller does: five times the limit is fetched, filtered,
      and cut. */
  method FindMatches(ctx: Context, v: Vector) returns (matches: seq<Match>)
    requires Search.Ascending(ctx.nearest(v))
    ensures matches == ctx.Found(v)
  {
    var limit := ctx.Headroom();
    var rows := First(ctx.nearest(v), limit * 5);
    var scored := Search.Collect(rows, ctx.threshold, limit);
    matches := seq(|scored|, i requires 0 <= i < |scored| => Match(scored[i].0, scored[i].1));
    Search.OverFetchLosesNothing(ctx.nearest(v), ctx.threshold, limit);
  }

  method GenerateCrossClusterSuggestions(results: seq<Labelled>, embeddings: seq<(FaceId, Vector)>,
                                         nearest: Vector -> seq<Search.Hit>, valid: set<FaceId>,
                                         threshold: real, perFace: int)
    returns (suggestions: seq<Suggestion>)
    requires forall v :: Search.Ascending(nearest(v))
    ensures suggestions
         == Context(LabelsOf(results), VectorsOf(embeddings), nearest, valid, threshold, perFace).Contributions(results)
  {
    suggestions := [];
    var ctx := Context(LabelsOf(results), VectorsOf(embeddings), nearest, valid, threshold, perFace);
    for i := 0 to |results|
      invariant suggestions == ctx.Contributions(results[..i])
    {
      var face, cluster := results[i].face, results[i].cluster;
      assert results[..i + 1][..i] == results[..i];
      if cluster == NOISE {
        continue;
      }
      if face !in ctx.vectors {
        continue;
      }
      var matches := FindMatches(ctx, ctx.vectors[face]);
      suggestions := SuggestFor(ctx, face, cluster, matches, suggestions);
    }
    assert results[..|results|] == results;
  }

  // The rescanning count is a running counter.
  lemma {:induction false} CountAppended(before: seq<Suggestion>, face: FaceId, found: seq<Match>)
    ensures CountFor(before + Suggest(face, found), face) == CountFor(before, face) + |found|
    decreases |found|
  {
    var all := before + Suggest(face, found);
    if found == [] {
      assert all == before;
    } else {
      var n := |found| - 1;
      assert all[..|all| - 1] == before + Suggest(face, found[..n]);
      CountAppended(before, face, found[..n]);
    }
  }

  lemma {:induction false} QualifyingPrefix(ctx: Context, matches: seq<Match>, j: nat, cluster: int)
    requires j <= |matches|
    ensures ctx.Qualifying(matches[..j], cluster) <= ctx.Qualifying(matches, cluster)
    decreases |matches|
  {
    if j == |matches| {
      assert matches[..j] == matches;
    } else {
      var n := |matches| - 1;
      assert matches[..n][..j] == matches[..j];
      QualifyingPrefix(ctx, matches[..n], j, cluster);
    }
  }

  // ---------------------------------------------------------------------
  // What the caller gets
  // ---------------------------------------------------------------------

  ghost predicate DistinctFaces(results: seq<Labelled>) {
    forall i, j | 0 <= i < j < |results| :: results[i].face != results[j].face
  }

  lemma {:induction false} ForAppended(a: seq<Suggestion>, b: seq<Suggestion>, face: FaceId)
    ensures For(a + b, face) == For(a, face) + For(b, face)
    decreases |b|
  {
    if b == [] {
      assert a + b == a;
    } else {
      var n := |b| - 1;
      assert (a + b)[..|a + b| - 1] == a + b[..n];
      ForAppended(a, b[..n], face);
    }
  }

  lemma {:induction false} ForOne(face: FaceId, matches: seq<Match>, other: FaceId)
    ensures For(Suggest(face, matches), other) == if face == other then Suggest(face, matches) else []
    decreases |matches|
  {
    if matches != [] {
      var n := |matches| - 1;
      assert Suggest(face, matches)[..n] == Suggest(face, matches[..n]);
      ForOne(face, matches[..n], other);
    }
  }

  lemma ContributionFor(ctx: Context, entry: Labelled, before: seq<Suggestion>, face: FaceId)
    ensures For(ctx.Contribution(entry, before), face) == if entry.face == face then ctx.Contribution(entry, before) else []
  {
    if entry.cluster != NOISE && entry.face in ctx.vectors {
      ForOne(entry.face,
             First(ctx.Qualifying(ctx.Found(ctx.vectors[entry.face]), entry.cluster), ctx.Quota(CountFor(before, entry.face))),
             face);
    }
  }

  lemma {:induction false} UnlistedGetNothing(ctx: Context, results: seq<Labelled>, face: FaceId)
    requires forall i | 0 <= i < |results| :: results[i].face != face
    ensures For(ctx.Contributions(results), face) == []
    decreases |results|
  {
    if results != [] {
      var n := |results| - 1;
      var before := ctx.Contributions(results[..n]);
      UnlistedGetNothing(ctx, results[..n], face);
      ForAppended(before, ctx.Contribution(results[n], before), face);
      ContributionFor(ctx, results[n], before, face);
    }
  }

  lemma {:induction false} OthersDoNotInterfere(ctx: Context, results: seq<Labelled>, i: nat)
    requires DistinctFaces(results) && i < |results|
    ensures For(ctx.Contributions(results), results[i].face) == ctx.Contribution(results[i], [])
    decreases |results|
  {
    var n := |results| - 1;
    var face := results[i].face;
    var before := ctx.Contributions(results[..n]);
    var more := ctx.Contribution(results[n], before);
    assert For(ctx.Contributions(results), face) == For(before, face) + For(more, face) by {
      ForAppended(before, more, face);
    }
    ContributionFor(ctx, results[n], before, face);
    if i < n {
      assert results[..n][i] == results[i];
      OthersDoNotInterfere(ctx, results[..n], i);
      assert For(more, face) == [];
    } else {
      UnlistedGetNothing(ctx, results[..n], face);
      assert CountFor(before, face) == CountFor([], face);
      assert more == ctx.Contribution(results[n], []);
    }
  }

  /** When no face is listed twice, each non-noise face gets exactly its first qualifying
      matches, as many as the limit says (one, if the limit is not positive), whatever the
      other faces got; noise gets none. */
  lemma EachFaceGetsItsBest(ctx: Context, results: seq<Labelled>, i: nat)
    requires DistinctFaces(results) && i < |results|
    ensures var entry := results[i];
            For(ctx.Contributions(results), entry.face)
              == if entry.cluster == NOISE || entry.face !in ctx.vectors then []
                 else Suggest(entry.face, First(ctx.Qualifying(ctx.Found(ctx.vectors[entry.face]), entry.cluster),
                                                if ctx.perFace >= 1 then ctx.perFace else 1))
  {
    OthersDoNotInterfere(ctx, results, i);
  }

  lemma {:induction false} QualifyingAppended(ctx: Context, a: seq<Match>, b: seq<Match>, cluster: int)
    ensures ctx.Qualifying(a + b, cluster) == ctx.Qualifying(a, cluster) + ctx.Qualifying(b, cluster)
    decreases |b|
  {
    if b == [] {
      assert a + b == a;
    } else {
      var n := |b| - 1;
      assert (a + b)[..|a + b| - 1] == a + b[..n];
      QualifyingAppended(ctx, a, b[..n], cluster);
    }
  }

  // More than ten of the nearest matches do not qualify, while one further away does.
  ghost predicate HeadroomTooSmall(ctx: Context, all: seq<Match>, cluster: int) {
    var near := First(all, ctx.Headroom());
    |near| - |ctx.Qualifying(near, cluster)| > 10 && ctx.Qualifying(all[|near|..], cluster) != []
  }

  lemma CutLosesExactlyWhen(ctx: Context, all: seq<Match>, cluster: int)
    requires ctx.perFace >= 1
    ensures First(ctx.Qualifying(First(all, ctx.Headroom()), cluster), ctx.perFace)
            != First(ctx.Qualifying(all, cluster), ctx.perFace)
       <==> HeadroomTooSmall(ctx, all, cluster)
  {
    var near := First(all, ctx.Headroom());
    var far := all[|near|..];
    assert all == near + far;
    QualifyingAppended(ctx, near, far, cluster);
    var some, more := ctx.Qualifying(near, cluster), ctx.Qualifying(far, cluster);
    assert |some| < ctx.perFace && more != [] ==> |First(some + more, ctx.perFace)| > |some|;
    assert |some| >= ctx.perFace ==> (some + more)[..ctx.perFace] == some[..ctx.perFace];
  }

  /** What the headroom of ten costs: a face gets other suggestions than a search of the
      whole store would give it, if and only if more than ten of the perFace + 10 nearest
      matches do not qualify while one further away does. */
  lemma HeadroomLosesExactlyWhen(ctx: Context, results: seq<Labelled>, i: nat)
    requires DistinctFaces(results) && i < |results| && ctx.perFace >= 1
    requires results[i].cluster != NOISE && results[i].face in ctx.vectors
    ensures var face, cluster := results[i].face, results[i].cluster;
            var all := ctx.AllMatches(ctx.vectors[face]);
            var best := First(ctx.Qualifying(all, cluster), ctx.perFace);
            For(ctx.Contributions(results), face) != Suggest(face, best) <==> HeadroomTooSmall(ctx, all, cluster)
  {
    var face, cluster := results[i].face, results[i].cluster;
    var all := ctx.AllMatches(ctx.vectors[face]);
    EachFaceGetsItsBest(ctx, results, i);
    CutLosesExactlyWhen(ctx, all, cluster);
    SuggestInjective(face, First(ctx.Qualifying(ctx.Found(ctx.vectors[face]), cluster), ctx.perFace),
                     First(ctx.Qualifying(all, cluster), ctx.perFace));
  }

  lemma SuggestInjective(face: FaceId, a: seq<Match>, b: seq<Match>)
    ensures Suggest(face, a) == Suggest(face, b) <==> a == b
  {
    if Suggest(face, a) == Suggest(face, b) {
      assert |Suggest(face, a)| == |a| && |Suggest(face, b)| == |b|;
      forall k | 0 <= k < |a| ensures a[k] == b[k] {
        assert Suggest(face, a)[k] == Suggest(face, b)[k];
      }
    }
  }

  lemma {:induction false} LabelsFound(results: seq<Labelled>, i: nat)
    requires DistinctFaces(results) && i < |results|
    ensures results[i].face in LabelsOf(results) && LabelsOf(results)[results[i].face] == results[i].cluster
    decreases |results|
  {
    if i < |results| - 1 { LabelsFound(results[..|results| - 1], i); }
  }

  lemma {:induction false} VectorsFound(embeddings: seq<(FaceId, Vector)>, e: nat)
    requires e < |embeddings| && forall i, j | 0 <= i < j < |embeddings| :: embeddings[i].0 != embeddings[j].0
    ensures embeddings[e].0 in VectorsOf(embeddings) && VectorsOf(embeddings)[embeddings[e].0] == embeddings[e].1
    decreases |embeddings|
  {
    if e < |embeddings| - 1 { VectorsFound(embeddings[..|embeddings| - 1], e); }
  }

  // A match of another cluster is among the first n qualifying ones, or n nearer ones are.
  lemma MatchIsTaken(ctx: Context, matches: seq<Match>, cluster: int, k: nat, n: nat)
    requires k < |matches| && n >= 1
    requires matches[k].face in ctx.valid && matches[k].face in ctx.labels
    requires ctx.labels[matches[k].face] != cluster && ctx.labels[matches[k].face] != NOISE
    ensures var taken := First(ctx.Qualifying(matches, cluster), n);
            matches[k] in taken || (|taken| == n && forall m | m in taken :: m in matches[..k])
  {
    var nearer := ctx.Qualifying(matches[..k], cluster);
    assert matches[..k + 1] == matches[..k] + [matches[k]];
    assert matches[..k + 1][..k] == matches[..k];
    assert ctx.Qualifying(matches[..k + 1], cluster) == nearer + [matches[k]];
    QualifyingPrefix(ctx, matches, k + 1, cluster);
    QualifyingQualify(ctx, matches[..k], cluster);
    var all := ctx.Qualifying(matches, cluster);
    assert nearer + [matches[k]] <= all;
    if n <= |nearer| {
      assert First(all, n) == nearer[..n];
    } else {
      assert First(all, n)[|nearer|] == matches[k];
    }
  }

  ghost predicate IsNearer(hits: seq<Search.Hit>, s: Suggestion) {
    exists b :: 0 <= b < |hits| && hits[b].face == s.suggested && 1.0 - hits[b].distance == s.confidence
  }

  lemma SuggestedFrom(face: FaceId, taken: seq<Match>, m: Match)
    ensures m in taken ==> Suggestion(face, m.face, m.confidence) in Suggest(face, taken)
  {
    if m in taken {
      var a :| 0 <= a < |taken| && taken[a] == m;
      assert Suggest(face, taken)[a] == Suggestion(face, m.face, m.confidence);
    }
  }

  // The rows that the search for a vector finds, nearest first.
  function FoundHits(nearest: Vector -> seq<Search.Hit>, v: Vector, threshold: real, limit: nat): seq<Search.Hit> {
    First(Search.AtLeast(nearest(v), threshold), limit)
  }

  // Hit k is suggested for the face with its similarity, or n nearer ones are.
  ghost predicate NotMissed(mine: seq<Suggestion>, face: FaceId, hits: seq<Search.Hit>, k: nat, n: nat)
    requires k < |hits|
  {
    || Suggestion(face, hits[k].face, 1.0 - hits[k].distance) in mine
    || (|mine| == n && forall s | s in mine :: IsNearer(hits[..k], s))
  }

  lemma HitIsTaken(ctx: Context, hits: seq<Search.Hit>, face: FaceId, cluster: int, k: nat, n: nat)
    requires k < |hits| && n >= 1
    requires hits[k].face in ctx.valid && hits[k].face in ctx.labels
    requires ctx.labels[hits[k].face] != cluster && ctx.labels[hits[k].face] != NOISE
    ensures NotMissed(Suggest(face, First(ctx.Qualifying(Matches(hits), cluster), n)), face, hits, k, n)
  {
    var matches := Matches(hits);
    var taken := First(ctx.Qualifying(matches, cluster), n);
    MatchIsTaken(ctx, matches, cluster, k, n);
    SuggestedFrom(face, taken, matches[k]);
    if matches[k] !in taken {
      forall s | s in Suggest(face, taken) ensures IsNearer(hits[..k], s) {
        var a :| 0 <= a < |taken| && Suggest(face, taken)[a] == s;
        assert taken[a] in taken;
        var b :| 0 <= b < k && matches[..k][b] == taken[a];
        assert hits[..k][b] == hits[b];
      }
    }
  }

  lemma FaceMissesNothing(ctx: Context, results: seq<Labelled>, i: nat, k: nat)
    requires DistinctFaces(results) && i < |results| && ctx.perFace + 10 > 0
    requires results[i].cluster != NOISE && results[i].face in ctx.vectors
    requires var hits := FoundHits(ctx.nearest, ctx.vectors[results[i].face], ctx.threshold, ctx.perFace + 10);
             && k < |hits| && hits[k].face in ctx.valid && hits[k].face in ctx.labels
             && ctx.labels[hits[k].face] != results[i].cluster && ctx.labels[hits[k].face] != NOISE
    ensures NotMissed(For(ctx.Contributions(results), results[i].face), results[i].face,
                      FoundHits(ctx.nearest, ctx.vectors[results[i].face], ctx.threshold, ctx.perFace + 10), k,
                      if ctx.perFace >= 1 then ctx.perFace else 1)
  {
    var v := ctx.vectors[results[i].face];
    var hits := FoundHits(ctx.nearest, v, ctx.threshold, ctx.perFace + 10);
    EachFaceGetsItsBest(ctx, results, i);
    FoundAreHits(ctx, v);
    HitIsTaken(ctx, hits, results[i].face, results[i].cluster, k, if ctx.perFace >= 1 then ctx.perFace else 1);
  }

  /** No suggestion is missed: take two listed faces of different clusters, neither of them
      noise, the second known to the caller and found by the search for the first at place k.
      Then it is suggested for the first, with its similarity, or the first already has as
      many suggestions as it may (one, if the limit is not positive), all of them nearer. */
  lemma NoSuggestionIsMissed(results: seq<Labelled>, embeddings: seq<(FaceId, Vector)>,
                             nearest: Vector -> seq<Search.Hit>, valid: set<FaceId>, threshold: real, perFace: int,
                             i: nat, j: nat, e: nat, k: nat)
    requires DistinctFaces(results) && i < |results| && j < |results|
    requires results[i].cluster != -1 && results[j].cluster != -1 && results[i].cluster != results[j].cluster
    requires forall a, b | 0 <= a < b < |embeddings| :: embeddings[a].0 != embeddings[b].0
    requires e < |embeddings| && embeddings[e].0 == results[i].face
    requires results[j].face in valid && perFace + 10 > 0
    requires var hits := FoundHits(nearest, embeddings[e].1, threshold, perFace + 10);
             k < |hits| && hits[k].face == results[j].face
    ensures var ctx := Context(LabelsOf(results), VectorsOf(embeddings), nearest, valid, threshold, perFace);
            NotMissed(For(ctx.Contributions(results), results[i].face), results[i].face,
                      FoundHits(nearest, embeddings[e].1, threshold, perFace + 10), k, if perFace >= 1 then perFace else 1)
  {
    VectorsFound(embeddings, e);
    LabelsFound(results, j);
    FaceMissesNothing(Context(LabelsOf(results), VectorsOf(embeddings), nearest, valid, threshold, perFace), results, i, k);
  }

  lemma FoundAreHits(ctx: Context, v: Vector)
    requires ctx.perFace + 10 > 0
    ensures ctx.Found(v) == Matches(FoundHits(ctx.nearest, v, ctx.threshold, ctx.perFace + 10))
  {
  }

  lemma {:induction false} QualifyingQualify(ctx: Context, matches: seq<Match>, cluster: int)
    ensures forall m | m in ctx.Qualifying(matches, cluster) :: ctx.Qualifies(m, cluster) && m in matches
    decreases |matches|
  {
    if matches != [] { QualifyingQualify(ctx, matches[..|matches| - 1], cluster); }
  }

  lemma {:induction false} SuggestionsQualify(ctx: Context, results: seq<Labelled>, s: Suggestion)
    requires s in ctx.Contributions(results)
    ensures exists i :: && 0 <= i < |results| && results[i].face == s.face && results[i].cluster != NOISE
                        && ctx.Qualifies(Match(s.suggested, s.confidence), results[i].cluster)
    decreases |results|
  {
    var n := |results| - 1;
    var before := ctx.Contributions(results[..n]);
    if s in before {
      SuggestionsQualify(ctx, results[..n], s);
      var i :| && 0 <= i < |results[..n]| && results[..n][i].face == s.face && results[..n][i].cluster != NOISE
               && ctx.Qualifies(Match(s.suggested, s.confidence), results[..n][i].cluster);
      assert results[i] == results[..n][i];
    } else {
      var matches := ctx.Found(ctx.vectors[results[n].face]);
      QualifyingQualify(ctx, matches, results[n].cluster);
      var chosen := First(ctx.Qualifying(matches, results[n].cluster), ctx.Quota(CountFor(before, results[n].face)));
      var k :| 0 <= k < |chosen| && Suggest(results[n].face, chosen)[k] == s;
      assert chosen[k] in ctx.Qualifying(matches, results[n].cluster);
      assert chosen[k] == Match(s.suggested, s.confidence);
    }
  }

  /** Every suggestion joins two known faces of different clusters, neither of them noise;
      so never a face to itself. */
  lemma SuggestionsJoinClusters(results: seq<Labelled>, vectors: map<FaceId, Vector>,
                                nearest: Vector -> seq<Search.Hit>, valid: set<FaceId>,
                                threshold: real, perFace: int, s: Suggestion)
    requires DistinctFaces(results)
    requires s in Context(LabelsOf(results), vectors, nearest, valid, threshold, perFace).Contributions(results)
    ensures var labels := LabelsOf(results);
            && s.face in labels && s.suggested in labels && s.suggested in valid
            && labels[s.face] != NOISE && labels[s.suggested] != NOISE
            && labels[s.face] != labels[s.suggested] && s.face != s.suggested
  {
    var ctx := Context(LabelsOf(results), vectors, nearest, valid, threshold, perFace);
    SuggestionsQualify(ctx, results, s);
    var i :| && 0 <= i < |results| && results[i].face == s.face && results[i].cluster != NOISE
             && ctx.Qualifies(Match(s.suggested, s.confidence), results[i].cluster);
    LabelsFound(results, i);
  }
}
