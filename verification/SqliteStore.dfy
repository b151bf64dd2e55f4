/** The SQLite store: a table of vectors and a table of face data that names its
    vector by row id. Both are changed in place, one statement after the other. */
module SqliteStore {
  import opened Basics
  import opened Embeddings
  import opened FiniteSets
  import Search

  datatype MetaRow = MetaRow(rowid: int, photo: string, sharpness: real, crop: string, present: bool)

  type Vectors = map<int, Vector>       // vec_faces, by rowid
  type Meta = map<FaceId, MetaRow>      // face_meta, by primary key

  function Rowids(meta: Meta): set<int> {
    set id | id in meta :: meta[id].rowid
  }

  /** The two tables are in bijection: every face has its own vector, and no vector
      is without a face. */
  ghost predicate Bijective(vectors: Vectors, meta: Meta) {
    && (forall a, b | a in meta && b in meta && meta[a].rowid == meta[b].rowid :: a == b)
    && (forall id | id in meta :: meta[id].rowid in vectors)
    && (forall r | r in vectors :: r in Rowids(meta))
  }

  /** What both tables hold together. */
  ghost function Joint(vectors: Vectors, meta: Meta): Faces
    requires Bijective(vectors, meta)
  {
    map id | id in meta :: Face(DetailsOf(vectors[meta[id].rowid], meta[id]), meta[id].present)
  }

  function DetailsOf(vector: Vector, row: MetaRow): Details {
    Details(vector, row.photo, row.sharpness, row.crop)
  }

  // Deleting some faces from both tables, vectors first.
  lemma RowsRemoved(vectors: Vectors, meta: Meta, ids: set<FaceId>, gone: set<int>)
    requires Bijective(vectors, meta)
    requires forall r :: r in gone <==> exists id :: id in meta && id in ids && meta[id].rowid == r
    ensures Bijective(vectors - gone, meta - ids)
    ensures Joint(vectors - gone, meta - ids) == Joint(vectors, meta) - ids
  {
    var vectors', meta' := vectors - gone, meta - ids;
    forall id | id in meta' ensures meta'[id].rowid in vectors' {
      assert meta'[id] == meta[id];
    }
    forall r | r in vectors' ensures r in Rowids(meta') {
      assert r in Rowids(meta);
      var id :| id in meta && meta[id].rowid == r;
      assert id in meta' && meta'[id].rowid == r;
    }
  }

  lemma RowInserted(vectors: Vectors, meta: Meta, id: FaceId, rowid: int, details: Details)
    requires Bijective(vectors, meta)
    requires id !in meta && rowid !in vectors
    ensures var vectors' := vectors[rowid := details.vector];
            var meta' := meta[id := MetaRow(rowid, details.photo, details.sharpness, details.crop, true)];
            Bijective(vectors', meta') && Joint(vectors', meta') == Joint(vectors, meta)[id := Face(details, true)]
  {
    var vectors' := vectors[rowid := details.vector];
    var meta' := meta[id := MetaRow(rowid, details.photo, details.sharpness, details.crop, true)];
    forall r | r in vectors' ensures r in Rowids(meta') {
      if r == rowid {
        assert meta'[id].rowid == r;
      } else {
        assert r in Rowids(meta);
        var other :| other in meta && meta[other].rowid == r;
        assert meta'[other].rowid == r;
      }
    }
  }

  // Only flags change.
  lemma RowsReflagged(vectors: Vectors, meta: Meta, meta': Meta)
    requires Bijective(vectors, meta)
    requires meta'.Keys == meta.Keys
    requires forall id | id in meta :: meta'[id] == meta[id].(present := meta'[id].present)
    ensures Bijective(vectors, meta')
    ensures Joint(vectors, meta').Keys == Joint(vectors, meta).Keys
    ensures forall id | id in meta :: Joint(vectors, meta')[id] == Joint(vectors, meta)[id].(present := meta'[id].present)
  {
    forall r | r in vectors ensures r in Rowids(meta') {
      assert r in Rowids(meta);
      var id :| id in meta && meta[id].rowid == r;
      assert meta'[id].rowid == r;
    }
  }

  lemma SameFaces(a: Faces, b: Faces)
    requires a.Keys == b.Keys && forall id | id in a :: a[id] == b[id]
    ensures a == b
  {
  }

  // UPDATE face_meta SET is_present = 0
  function ResetRows(meta: Meta): Meta {
    map id | id in meta :: meta[id].(present := false)
  }

  // UPDATE face_meta SET is_present = 1 WHERE lychee_face_id IN (ids)
  function MarkRows(meta: Meta, ids: seq<FaceId>): Meta {
    map id | id in meta :: if id in ids then meta[id].(present := true) else meta[id]
  }

  lemma RowsReset(vectors: Vectors, meta: Meta)
    requires Bijective(vectors, meta)
    ensures Bijective(vectors, ResetRows(meta))
    ensures Reset(Joint(vectors, meta)).Keys == Joint(vectors, meta).Keys
    ensures Joint(vectors, ResetRows(meta)) == Reset(Joint(vectors, meta))
  {
    RowsReflagged(vectors, meta, ResetRows(meta));
    SameFaces(Joint(vectors, ResetRows(meta)), Reset(Joint(vectors, meta)));
  }

  lemma RowsMarked(vectors: Vectors, meta: Meta, ids: seq<FaceId>)
    requires Bijective(vectors, meta)
    ensures Joint(vectors, meta).Keys == meta.Keys
    ensures Bijective(vectors, MarkRows(meta, ids))
    ensures Joint(vectors, MarkRows(meta, ids)) == Marked(Joint(vectors, meta), ids)
  {
    RowsReflagged(vectors, meta, MarkRows(meta, ids));
    SameFaces(Joint(vectors, MarkRows(meta, ids)), Marked(Joint(vectors, meta), ids));
  }

  // SELECT lychee_face_id / vec_rowid FROM face_meta WHERE is_present = 0
  function AbsentRows(meta: Meta): set<FaceId> {
    set id | id in meta && !meta[id].present
  }

  function AbsentVectors(meta: Meta): set<int> {
    set id | id in meta && !meta[id].present :: meta[id].rowid
  }

  lemma AbsentTogether(vectors: Vectors, meta: Meta)
    requires Bijective(vectors, meta)
    ensures AbsentRows(meta) == Absent(Joint(vectors, meta))
    ensures forall r :: r in AbsentVectors(meta) <==> exists id :: id in meta && id in AbsentRows(meta) && meta[id].rowid == r
  {
  }

  lemma RowsPurged(vectors: Vectors, meta: Meta)
    requires Bijective(vectors, meta)
    ensures var (vectors', meta') := (vectors - AbsentVectors(meta), meta - AbsentRows(meta));
            && Bijective(vectors', meta')
            && Joint(vectors', meta') == Kept(Joint(vectors, meta))
    ensures |AbsentRows(meta)| == |Absent(Joint(vectors, meta))| == |Joint(vectors, meta)| - |Kept(Joint(vectors, meta))|
  {
    AbsentTogether(vectors, meta);
    RowsRemoved(vectors, meta, AbsentRows(meta), AbsentVectors(meta));
    KeptAreTheRest(Joint(vectors, meta));
  }

  /** Both tables always have the same number of rows. */
  lemma SameSize(vectors: Vectors, meta: Meta)
    requires Bijective(vectors, meta)
    ensures |vectors| == |meta|
  {
    RowidsSize(meta, meta.Keys);
    assert forall r | r in vectors.Keys :: r in Rowids(meta);
    assert vectors.Keys == Rowids(meta);
    assert Rowids(meta) == set id | id in meta.Keys :: meta[id].rowid;
  }

  lemma {:induction false} RowidsSize(meta: Meta, ids: set<FaceId>)
    requires ids <= meta.Keys
    requires forall a, b | a in ids && b in ids && meta[a].rowid == meta[b].rowid :: a == b
    ensures |set id | id in ids :: meta[id].rowid| == |ids|
    decreases |ids|
  {
    var rowids := set id | id in ids :: meta[id].rowid;
    if id :| id in ids {
      var rest := ids - {id};
      RowidsSize(meta, rest);
      assert rowids == (set x | x in rest :: meta[x].rowid) + {meta[id].rowid};
    } else {
      assert rowids == {};
    }
  }

  lemma FreshRowid(used: set<int>)
    ensures exists r :: r !in used
  {
    var negated := set r | r in used :: -r;
    if negated != {} {
      var unused := 1 - Least(negated);
      assert unused in used ==> -unused in negated;
      assert unused !in used;
    } else {
      assert 0 in used ==> -0 in negated;
      assert 0 !in used;
    }
  }

  lemma Replaced(faces: Faces, id: FaceId, face: Face)
    ensures (faces - {id})[id := face] == faces[id := face]
  {
  }

  class SQLiteEmbeddingStore {
    var vectors: Vectors
    var meta: Meta

    ghost predicate Valid()
      reads this
    {
      Bijective(vectors, meta)
    }

    ghost function Contents(): Faces
      reads this
      requires Valid()
    {
      Joint(vectors, meta)
    }

    constructor ()
      ensures Valid() && Contents() == map[]
    {
      vectors, meta := map[], map[];
    }

    method Add(id: FaceId, details: Details)
      requires Valid()
      modifies this
      ensures Valid()
      ensures Contents() == Sqlite(old(Contents()), Op.Add(id, details)).0
      ensures id in Contents() && Contents()[id] == Face(details, true)
      ensures forall other | other != id ::
                && (other in Contents() <==> other in old(Contents()))
                && (other in Contents() ==> Contents()[other] == old(Contents())[other])
    {
      ghost var before := Contents();
      DeleteInternal(id);
      Replaced(before, id, Face(details, true));
      FreshRowid(vectors.Keys);
      var rowid :| rowid !in vectors.Keys;
      RowInserted(vectors, meta, id, rowid, details);
      vectors := vectors[rowid := details.vector];
      meta := meta[id := MetaRow(rowid, details.photo, details.sharpness, details.crop, true)];
    }

    method DeleteInternal(id: FaceId)
      requires Valid()
      modifies this
      ensures Valid() && id !in meta
      ensures Contents() == old(Contents()) - {id}
    {
      if id in meta {
        RowsRemoved(vectors, meta, {id}, {meta[id].rowid});
        vectors := vectors - {meta[id].rowid};
        meta := meta - {id};
      } else {
        assert Contents() - {id} == Contents();
      }
    }

    method Delete(id: FaceId)
      requires Valid()
      modifies this
      ensures Valid()
      ensures Contents() == Sqlite(old(Contents()), Op.Delete(id)).0
    {
      DeleteInternal(id);
    }

    /** One look-up and two deletions per id, in the order of the list; a repeated
        id is found only once. */
    method DeleteMany(ids: seq<FaceId>) returns (deleted: nat)
      requires Valid()
      modifies this
      ensures Valid()
      ensures Contents() == old(Contents()) - IdSet(ids)
      ensures deleted == Matching(old(Contents()).Keys, ids) == |old(Contents())| - |Contents()|
    {
      deleted := 0;
      ghost var before := Contents();
      NothingRemoved(before, ids);
      for i := 0 to |ids|
        invariant Valid()
        invariant RemovedUpTo(before, Contents(), ids, i, deleted)
      {
        OneMoreRemoved(before, Contents(), ids, i, deleted);
        var found := FetchAndDelete(ids[i]);
        if found {
          deleted := deleted + 1;
        }
      }
      AllRemoved(before, Contents(), ids, deleted);
    }

    method FetchAndDelete(id: FaceId) returns (found: bool)
      requires Valid()
      modifies this
      ensures Valid()
      ensures found <==> id in old(Contents())
      ensures Contents() == old(Contents()) - {id}
    {
      found := id in meta;
      DeleteInternal(id);
    }

    method SyncBatch(ids: seq<FaceId>, batch: int) returns (marked: nat)
      requires Valid()
      modifies this`meta
      ensures Valid()
      ensures Contents() == Synced(old(Contents()), ids, batch)
      ensures marked == ChunkedCount(old(Contents()).Keys, ids)
    {
      if batch == 0 {
        RowsReset(vectors, meta);
        meta := ResetRows(meta);
      }
      if ids == [] {
        NoIds(Contents(), ids);
        assert ids[..0] == ids;
        return 0;
      }
      marked := MarkPresentChunked(ids);
    }

    method MarkPresentChunked(ids: seq<FaceId>) returns (marked: nat)
      requires Valid()
      modifies this`meta
      ensures Valid()
      ensures Contents() == Marked(old(Contents()), ids)
      ensures marked == ChunkedCount(old(Contents()).Keys, ids)
    {
      marked := 0;
      ghost var before := Contents();
      NothingMarked(before, ids);
      var i := 0;
      while i < |ids|
        invariant 0 <= i
        invariant Valid()
        invariant MarkedUpTo(before, Contents(), ids, i, marked)
        decreases |ids| - i
      {
        var chunk := ids[i..if i + MAX_VARS < |ids| then i + MAX_VARS else |ids|];
        ghost var now := Contents();
        var rowcount := UpdatePresent(chunk);
        NextChunk(before, now, ids, i, marked, chunk);
        marked := marked + rowcount;
        i := i + MAX_VARS;
      }
      AllMarked(before, Contents(), ids, i, marked);
    }

    // UPDATE ... SET is_present = 1 WHERE lychee_face_id IN (chunk), and its row count
    method UpdatePresent(chunk: seq<FaceId>) returns (rowcount: nat)
      requires Valid()
      modifies this`meta
      ensures Valid()
      ensures Contents() == Marked(old(Contents()), chunk)
      ensures rowcount == Matching(old(Contents()).Keys, chunk)
    {
      RowsMarked(vectors, meta, chunk);
      rowcount := |Selected(meta.Keys, chunk)|;
      meta := MarkRows(meta, chunk);
    }

    /** First the vectors of the absent faces, then their rows. */
    method PurgeAbsent() returns (deleted: nat)
      requires Valid()
      modifies this
      ensures Valid()
      ensures (Contents(), deleted) == Sqlite(old(Contents()), Op.PurgeAbsent)
      ensures deleted == |old(Contents())| - |Contents()|
    {
      RowsPurged(vectors, meta);
      vectors := vectors - AbsentVectors(meta);
      deleted := |AbsentRows(meta)|;
      meta := meta - AbsentRows(meta);
    }

    method Count() returns (n: nat)
      requires Valid()
      ensures n == |Contents()| == |vectors|
    {
      n := |meta|;
      assert Contents().Keys == meta.Keys;
      SameSize(vectors, meta);
    }

    /** The join of both tables: every face once, with its own vector. */
    method GetAll() returns (rows: set<(FaceId, Vector)>)
      requires Valid()
      ensures forall id, v :: (id, v) in rows <==> id in Contents() && v == Contents()[id].details.vector
    {
      rows := set id, r | id in meta && r in vectors && r == meta[id].rowid :: (id, vectors[r]);
    }

    /** The index hands over the 5 * limit nearest rows; the answer is nevertheless the
        best `limit` of the whole store. */
    method SimilaritySearch(ranking: seq<int>, distance: Vector -> real, threshold: real, limit: nat)
      returns (results: seq<(FaceId, real)>)
      requires Valid() && IsRanking(vectors, ranking, distance)
      ensures var hits := Join(vectors, meta, ranking, distance);
              var answer := First(Search.AtLeast(hits, threshold), limit);
              && results == Search.Scored(answer)
              && Search.BestMatches(answer, AllHits(Contents(), distance), threshold, limit)
      ensures TellsDistances(Contents(), distance, results)
    {
      ghost var hits := Join(vectors, meta, ranking, distance);
      var nearest := First(ranking, limit * 5);
      assert forall i | 0 <= i < |nearest| :: nearest[i] == ranking[i];
      var rows := Join(vectors, meta, nearest, distance);
      assert rows == First(hits, limit * 5);
      results := Search.Collect(rows, threshold, limit);
      JoinRanks(vectors, meta, ranking, distance);
      Search.OverFetchLosesNothing(hits, threshold, limit);
      Search.CutOffIsBest(hits, AllHits(Contents(), distance), threshold, limit);
      HitsTell(Contents(), distance, First(Search.AtLeast(hits, threshold), limit));
    }
  }

  // Every result is a stored face with one minus the distance of its vector.
  ghost predicate TellsDistances(faces: Faces, distance: Vector -> real, results: seq<(FaceId, real)>) {
    forall i | 0 <= i < |results| ::
      results[i].0 in faces && results[i].1 == 1.0 - distance(faces[results[i].0].details.vector)
  }

  lemma HitsTell(faces: Faces, distance: Vector -> real, hits: seq<Search.Hit>)
    requires forall i | 0 <= i < |hits| :: hits[i] in AllHits(faces, distance)
    ensures TellsDistances(faces, distance, Search.Scored(hits))
  {
  }

  // What holds after the first i deletions.
  ghost predicate RemovedUpTo(before: Faces, now: Faces, ids: seq<FaceId>, i: nat, deleted: nat)
    requires i <= |ids|
  {
    now == before - IdSet(ids[..i]) && deleted == Matching(before.Keys, ids[..i])
  }

  lemma NothingRemoved(faces: Faces, ids: seq<FaceId>)
    ensures RemovedUpTo(faces, faces, ids, 0, 0)
  {
    NoIds(faces, ids);
  }

  lemma OneMoreRemoved(before: Faces, now: Faces, ids: seq<FaceId>, i: nat, deleted: nat)
    requires i < |ids| && RemovedUpTo(before, now, ids, i, deleted)
    ensures RemovedUpTo(before, now - {ids[i]}, ids, i + 1, deleted + (if ids[i] in now then 1 else 0))
  {
    NextId(before, ids, i);
  }

  lemma AllRemoved(before: Faces, now: Faces, ids: seq<FaceId>, deleted: nat)
    requires RemovedUpTo(before, now, ids, |ids|, deleted)
    ensures now == before - IdSet(ids)
    ensures deleted == Matching(before.Keys, ids) == |before| - |now|
  {
    assert ids[..|ids|] == ids;
    DeletedCount(before, ids);
  }

  // What holds after the chunks that start below position i.
  ghost predicate MarkedUpTo(before: Faces, now: Faces, ids: seq<FaceId>, i: nat, marked: nat) {
    && now == Marked(before, if i < |ids| then ids[..i] else ids)
    && now.Keys == before.Keys
    && ChunkedCount(before.Keys, ids) == marked + (if i < |ids| then ChunkedCount(before.Keys, ids[i..]) else 0)
  }

  lemma NothingMarked(faces: Faces, ids: seq<FaceId>)
    ensures MarkedUpTo(faces, faces, ids, 0, 0)
  {
    NoIds(faces, ids);
    if ids != [] { assert ids[0..] == ids; }
  }

  lemma AllMarked(before: Faces, now: Faces, ids: seq<FaceId>, i: nat, marked: nat)
    requires MarkedUpTo(before, now, ids, i, marked) && i >= |ids|
    ensures now == Marked(before, ids) && marked == ChunkedCount(before.Keys, ids)
  {
  }

  lemma NextChunk(before: Faces, now: Faces, ids: seq<FaceId>, i: nat, marked: nat, chunk: seq<FaceId>)
    requires i < |ids| && MarkedUpTo(before, now, ids, i, marked)
    requires chunk == ids[i..if i + MAX_VARS < |ids| then i + MAX_VARS else |ids|]
    ensures MarkedUpTo(before, Marked(now, chunk), ids, i + MAX_VARS, marked + Matching(now.Keys, chunk))
  {
    MarkedInParts(before, ids[..i], chunk);
    var rest := ids[i..];
    if i + MAX_VARS < |ids| {
      assert ids[..i] + chunk == ids[..i + MAX_VARS];
      assert rest[..MAX_VARS] == chunk && rest[MAX_VARS..] == ids[i + MAX_VARS..];
    } else {
      assert ids[..i] + chunk == ids;
      assert rest == chunk;
    }
  }

  lemma NoIds(faces: Faces, ids: seq<FaceId>)
    ensures faces - IdSet(ids[..0]) == faces
    ensures Matching(faces.Keys, ids[..0]) == 0
    ensures Marked(faces, ids[..0]) == faces
  {
    assert Selected(faces.Keys, ids[..0]) == {};
  }

  lemma NextId(faces: Faces, ids: seq<FaceId>, i: nat)
    requires i < |ids|
    ensures var left := faces - IdSet(ids[..i]);
            && left - {ids[i]} == faces - IdSet(ids[..i + 1])
            && Matching(faces.Keys, ids[..i + 1]) == Matching(faces.Keys, ids[..i]) + (if ids[i] in left then 1 else 0)
  {
    var a, id := IdSet(ids[..i]), ids[i];
    assert IdSet(ids[..i + 1]) == a + {id};
    assert (faces - a) - {id} == faces - (a + {id});
    var before, after := Selected(faces.Keys, ids[..i]), Selected(faces.Keys, ids[..i + 1]);
    assert id in faces - a <==> id in faces.Keys && id !in before;
    assert after == if id in faces - a then before + {id} else before;
  }

  // ORDER BY distance over the whole index: the row ids, nearest first.
  ghost predicate IsRanking(vectors: Vectors, ranking: seq<int>, distance: Vector -> real) {
    && (forall i | 0 <= i < |ranking| :: ranking[i] in vectors)
    && (forall r | r in vectors :: r in ranking)
    && (forall i, j | 0 <= i < j < |ranking| :: ranking[i] != ranking[j])
    && (forall i, j | 0 <= i < j < |ranking| :: distance(vectors[ranking[i]]) <= distance(vectors[ranking[j]]))
  }

  // The face whose vector has a row id: the ON condition of the join.
  function FaceOf(vectors: Vectors, meta: Meta, r: int): (id: FaceId)
    requires Bijective(vectors, meta) && r in vectors
    ensures id in meta && meta[id].rowid == r
  {
    assert r in Rowids(meta);
    var id :| id in meta && meta[id].rowid == r;
    id
  }

  function Join(vectors: Vectors, meta: Meta, ranking: seq<int>, distance: Vector -> real): seq<Search.Hit>
    requires Bijective(vectors, meta)
    requires forall i | 0 <= i < |ranking| :: ranking[i] in vectors
  {
    seq(|ranking|, i requires 0 <= i < |ranking| =>
      Search.Hit(FaceOf(vectors, meta, ranking[i]), distance(vectors[ranking[i]])))
  }

  // Every stored face with its distance to the query.
  ghost function AllHits(faces: Faces, distance: Vector -> real): set<Search.Hit> {
    set id | id in faces :: Search.Hit(id, distance(faces[id].details.vector))
  }

  lemma JoinRanks(vectors: Vectors, meta: Meta, ranking: seq<int>, distance: Vector -> real)
    requires Bijective(vectors, meta) && IsRanking(vectors, ranking, distance)
    ensures Search.Ranks(Join(vectors, meta, ranking, distance), AllHits(Joint(vectors, meta), distance))
  {
    var hits, faces := Join(vectors, meta, ranking, distance), Joint(vectors, meta);
    forall hit | hit in AllHits(faces, distance) ensures hit in hits {
      var r := meta[hit.face].rowid;
      var i :| 0 <= i < |ranking| && ranking[i] == r;
      assert hits[i] == hit;
    }
    forall hit | hit in hits ensures hit in AllHits(faces, distance) {
      var i :| 0 <= i < |hits| && hits[i] == hit;
      assert hit.face in faces;
    }
  }
}
