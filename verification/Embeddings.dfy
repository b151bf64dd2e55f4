/** What an embedding store holds, and what the operations of the two backends do to
    it, statement by statement. */
module Embeddings {

  datatype FaceId = FaceId(name: string)
  type Vector = seq<real>

  datatype Details = Details(vector: Vector, photo: string, sharpness: real, crop: string)

  // `present` is the flag that the sync protocol sets and the purge reads.
  datatype Face = Face(details: Details, present: bool)

  type Faces = map<FaceId, Face>

  datatype Op =
    | Add(id: FaceId, details: Details)
    | Delete(id: FaceId)
    | DeleteMany(ids: seq<FaceId>)
    | SyncBatch(ids: seq<FaceId>, batch: int)
    | PurgeAbsent

  function IdSet(ids: seq<FaceId>): set<FaceId> {
    set id | id in ids
  }

  function Reset(faces: Faces): Faces {
    map id | id in faces :: faces[id].(present := false)
  }

  function Marked(faces: Faces, ids: seq<FaceId>): Faces {
    map id | id in faces :: if id in ids then faces[id].(present := true) else faces[id]
  }

  // Batch 0 clears all flags first.
  function Synced(faces: Faces, ids: seq<FaceId>, batch: int): Faces {
    Marked(if batch == 0 then Reset(faces) else faces, ids)
  }

  function Kept(faces: Faces): Faces {
    map id | id in faces && faces[id].present :: faces[id]
  }

  function Absent(faces: Faces): set<FaceId> {
    set id | id in faces && !faces[id].present
  }

  // The number of rows that an IN (...) or = ANY(...) condition selects.
  function Matching(keys: set<FaceId>, ids: seq<FaceId>): nat {
    |Selected(keys, ids)|
  }

  function Selected(keys: set<FaceId>, ids: seq<FaceId>): set<FaceId> {
    set id | id in keys && id in ids
  }

  // ---------------------------------------------------------------------
  // PostgreSQL: one statement over the whole list
  // ---------------------------------------------------------------------

  function Pg(faces: Faces, op: Op): (Faces, nat) {
    match op
    case Add(id, details) =>
      // the upsert leaves the flag of an existing row alone
      (faces[id := Face(details, id in faces ==> faces[id].present)], 0)
    case Delete(id) => (faces - {id}, 0)
    case DeleteMany(ids) => (faces - IdSet(ids), Matching(faces.Keys, ids))
    case SyncBatch(ids, batch) =>
      (Synced(faces, ids, batch), Matching(faces.Keys, ids))
    case PurgeAbsent => (Kept(faces), |Absent(faces)|)
  }

  lemma RemovedCount(faces: Faces, gone: set<FaceId>)
    ensures |faces - gone| == |faces| - |faces.Keys * gone|
  {
    assert (faces - gone).Keys == faces.Keys - gone;
    assert faces.Keys == (faces.Keys - gone) + (faces.Keys * gone);
  }

  lemma KeptAreTheRest(faces: Faces)
    ensures Kept(faces) == faces - Absent(faces)
    ensures |Absent(faces)| == |faces| - |Kept(faces)|
  {
    RemovedCount(faces, Absent(faces));
    assert faces.Keys * Absent(faces) == Absent(faces);
  }

  /** The number that `delete_many` answers is the number of faces that are gone. */
  lemma DeletedCount(faces: Faces, ids: seq<FaceId>)
    ensures Matching(faces.Keys, ids) == |faces| - |faces - IdSet(ids)|
  {
    assert Selected(faces.Keys, ids) == faces.Keys * IdSet(ids);
    RemovedCount(faces, IdSet(ids));
  }

  // ---------------------------------------------------------------------
  // SQLite: delete and insert instead of upsert, and chunks of bind variables
  // ---------------------------------------------------------------------

  const MAX_VARS := 999

  function Sqlite(faces: Faces, op: Op): (Faces, nat) {
    match op
    case Add(id, details) => (faces[id := Face(details, true)], 0)
    case Delete(id) => (faces - {id}, 0)
    case DeleteMany(ids) => (faces - IdSet(ids), Matching(faces.Keys, ids))
    case SyncBatch(ids, batch) =>
      (Synced(faces, ids, batch), ChunkedCount(faces.Keys, ids))
    case PurgeAbsent => (Kept(faces), |Absent(faces)|)
  }

  // The row counts of the UPDATEs, one per chunk, added up.
  function ChunkedCount(keys: set<FaceId>, ids: seq<FaceId>): nat
    decreases |ids|
  {
    if ids == [] then 0
    else if |ids| <= MAX_VARS then Matching(keys, ids)
    else Matching(keys, ids[..MAX_VARS]) + ChunkedCount(keys, ids[MAX_VARS..])
  }

  /** No stored id occurs in two different chunks. */
  ghost predicate NoIdAcrossChunks(keys: set<FaceId>, ids: seq<FaceId>) {
    forall i, j | 0 <= i < j < |ids| && ids[i] == ids[j] && ids[i] in keys :: i / MAX_VARS == j / MAX_VARS
  }

  function Common(keys: set<FaceId>, a: seq<FaceId>, b: seq<FaceId>): set<FaceId> {
    set id | id in keys && id in a && id in b
  }

  lemma SplitMatching(keys: set<FaceId>, a: seq<FaceId>, b: seq<FaceId>)
    ensures Matching(keys, a + b) + |Common(keys, a, b)| == Matching(keys, a) + Matching(keys, b)
  {
    var x, y := Selected(keys, a), Selected(keys, b);
    assert Selected(keys, a + b) == x + y;
    assert Common(keys, a, b) == x * y;
    assert |x + y| + |x * y| == |x| + |y|;
  }

  /** Chunking never counts too few, and counts right exactly when no stored id
      is repeated in another chunk. */
  lemma {:induction false} ChunkedCountExact(keys: set<FaceId>, ids: seq<FaceId>)
    ensures ChunkedCount(keys, ids) >= Matching(keys, ids)
    ensures ChunkedCount(keys, ids) == Matching(keys, ids) <==> NoIdAcrossChunks(keys, ids)
    decreases |ids|
  {
    if ids == [] {
      assert Selected(keys, ids) == {};
    } else if |ids| > MAX_VARS {
      var a, b := ids[..MAX_VARS], ids[MAX_VARS..];
      assert ids == a + b;
      ChunkedCountExact(keys, b);
      SplitMatching(keys, a, b);
      var common := Common(keys, a, b);
      AcrossFirstChunk(keys, ids);
      assert |common| == 0 <==> common == {};
    }
  }

  lemma AcrossFirstChunk(keys: set<FaceId>, ids: seq<FaceId>)
    requires |ids| > MAX_VARS
    ensures NoIdAcrossChunks(keys, ids)
       <==> Common(keys, ids[..MAX_VARS], ids[MAX_VARS..]) == {} && NoIdAcrossChunks(keys, ids[MAX_VARS..])
  {
    var a, b := ids[..MAX_VARS], ids[MAX_VARS..];
    var common := Common(keys, a, b);
    forall i, j | 0 <= i < MAX_VARS <= j < |ids| && ids[i] == ids[j] && ids[i] in keys ensures ids[i] in common {
      assert a[i] == ids[i] && b[j - MAX_VARS] == ids[j];
    }
    if id :| id in common {
      var i :| 0 <= i < |a| && a[i] == id;
      var j :| 0 <= j < |b| && b[j] == id;
      assert ids[i] == ids[j + MAX_VARS] && ids[i] in keys;
    } else if NoIdAcrossChunks(keys, ids) {
      forall i, j | 0 <= i < j < |b| && b[i] == b[j] && b[i] in keys ensures i / MAX_VARS == j / MAX_VARS {
        assert ids[i + MAX_VARS] == ids[j + MAX_VARS];
      }
    } else {
      var i, j :| 0 <= i < j < |ids| && ids[i] == ids[j] && ids[i] in keys && i / MAX_VARS != j / MAX_VARS;
      assert i >= MAX_VARS;
      assert b[i - MAX_VARS] == b[j - MAX_VARS];
    }
  }

  /** How much a chunked count can be off: n copies of one stored id count once per chunk of
      999, so up to that many are counted right and one more is counted twice. */
  lemma {:induction false} CopiesCountOncePerChunk(keys: set<FaceId>, id: FaceId, ids: seq<FaceId>)
    requires id in keys && forall i | 0 <= i < |ids| :: ids[i] == id
    ensures ChunkedCount(keys, ids) == (|ids| + 998) / 999
    decreases |ids|
  {
    if ids == [] {
    } else if |ids| <= 999 {
      assert ids[0] == id && Selected(keys, ids) == {id};
    } else {
      var first := ids[..999];
      assert first[0] == id && Selected(keys, first) == {id};
      CopiesCountOncePerChunk(keys, id, ids[999..]);
    }
  }

  /** Marking in two goes is marking once: what every chunked UPDATE rests on. */
  lemma MarkedInParts(faces: Faces, a: seq<FaceId>, b: seq<FaceId>)
    ensures Marked(Marked(faces, a), b) == Marked(faces, a + b)
  {
  }

  // ---------------------------------------------------------------------
  // Where the backends agree
  // ---------------------------------------------------------------------

  /** Every operation leaves the same faces under both backends, except that re-adding a
      face whose flag is off turns the flag on in SQLite only. */
  lemma BackendsDifferExactlyOn(faces: Faces, op: Op)
    ensures Sqlite(faces, op).0 == Pg(faces, op).0
       <==> !(op.Add? && op.id in faces && !faces[op.id].present)
  {
    if op.Add? {
      assert Sqlite(faces, op).0[op.id].present;
      assert Pg(faces, op).0[op.id].present == (op.id in faces ==> faces[op.id].present);
    }
  }
}
