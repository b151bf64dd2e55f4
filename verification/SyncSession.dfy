/** The sync protocol as mark and sweep: batch 0 clears every flag, batches set some,
    the purge removes what is left unset, and faces come and go in between. */
module SyncSession {
  import opened Embeddings

  function RunSqlite(faces: Faces, ops: seq<Op>): Faces
    decreases |ops|
  {
    if ops == [] then faces else RunSqlite(Sqlite(faces, ops[0]).0, ops[1..])
  }

  function RunPg(faces: Faces, ops: seq<Op>): Faces
    decreases |ops|
  {
    if ops == [] then faces else RunPg(Pg(faces, ops[0]).0, ops[1..])
  }

  // A session goes on as long as no other batch 0 starts a new one.
  predicate SameSession(ops: seq<Op>) {
    forall i | 0 <= i < |ops| :: ops[i].SyncBatch? ==> ops[i].batch != 0
  }

  // The ids that the batches name, the ids that are added, and those that are added
  // while they are not stored.
  function Named(ops: seq<Op>): set<FaceId> {
    if ops == [] then {}
    else (if ops[0].SyncBatch? then IdSet(ops[0].ids) else {}) + Named(ops[1..])
  }

  function Added(ops: seq<Op>): set<FaceId> {
    if ops == [] then {}
    else (if ops[0].Add? then {ops[0].id} else {}) + Added(ops[1..])
  }

  function Inserted(faces: Faces, ops: seq<Op>): set<FaceId>
    decreases |ops|
  {
    if ops == [] then {}
    else
      (if ops[0].Add? && ops[0].id !in faces then {ops[0].id} else {})
      + Inserted(Pg(faces, ops[0]).0, ops[1..])
  }

  function Present(faces: Faces): set<FaceId> {
    set id | id in faces && faces[id].present
  }

  // Faces do not appear from nowhere.
  lemma {:induction false} StoredOrAdded(faces: Faces, ops: seq<Op>, id: FaceId)
    requires id in RunSqlite(faces, ops)
    ensures id in faces || id in Added(ops)
    decreases |ops|
  {
    if ops != [] { StoredOrAdded(Sqlite(faces, ops[0]).0, ops[1..], id); }
  }

  lemma {:induction false} StoredOrInserted(faces: Faces, ops: seq<Op>, id: FaceId)
    requires id in RunPg(faces, ops)
    ensures id in faces || id in Inserted(faces, ops)
    decreases |ops|
  {
    if ops != [] { StoredOrInserted(Pg(faces, ops[0]).0, ops[1..], id); }
  }

  lemma {:induction false} FlagsSqlite(faces: Faces, ops: seq<Op>, id: FaceId)
    requires SameSession(ops)
    requires id in RunSqlite(faces, ops)
    ensures RunSqlite(faces, ops)[id].present <==> id in Present(faces) + Named(ops) + Added(ops)
    decreases |ops|
  {
    if ops != [] {
      var faces1 := Sqlite(faces, ops[0]).0;
      FlagsSqlite(faces1, ops[1..], id);
      StoredOrAdded(faces1, ops[1..], id);
    }
  }

  lemma {:induction false} FlagsPg(faces: Faces, ops: seq<Op>, id: FaceId)
    requires SameSession(ops)
    requires id in RunPg(faces, ops)
    ensures RunPg(faces, ops)[id].present <==> id in Present(faces) + Named(ops) + Inserted(faces, ops)
    decreases |ops|
  {
    if ops != [] {
      var faces1 := Pg(faces, ops[0]).0;
      FlagsPg(faces1, ops[1..], id);
      StoredOrInserted(faces1, ops[1..], id);
    }
  }

  // The last addition of a face in a run; -1 when there is none.
  function LastAdd(ops: seq<Op>, id: FaceId): (i: int)
    ensures -1 <= i < |ops|
    ensures i >= 0 ==> ops[i].Add? && ops[i].id == id
    ensures forall k | i < k < |ops| :: !(ops[k].Add? && ops[k].id == id)
  {
    if ops == [] then -1
    else
      var n := |ops| - 1;
      if ops[n].Add? && ops[n].id == id then n else LastAdd(ops[..n], id)
  }

  // The details a stored face should have.
  function LatestDetails(faces: Faces, ops: seq<Op>, id: FaceId): Details
    requires id in faces || LastAdd(ops, id) >= 0
  {
    var i := LastAdd(ops, id);
    if i >= 0 then ops[i].details else faces[id].details
  }

  lemma {:induction false} LastAddOfRest(ops: seq<Op>, id: FaceId)
    requires ops != []
    ensures var i := LastAdd(ops[1..], id);
            LastAdd(ops, id) == if i >= 0 then i + 1 else if ops[0].Add? && ops[0].id == id then 0 else -1
  {
    var i, j := LastAdd(ops[1..], id), LastAdd(ops, id);
    assert forall k | 0 <= k < |ops[1..]| :: ops[1..][k] == ops[k + 1];
    if j >= 1 { assert ops[1..][j - 1] == ops[j]; }
    if i >= 0 { assert ops[i + 1] == ops[1..][i]; }
  }

  /** Whatever else happens, batches and purges included, a stored face has the vector, photo,
      sharpness and crop it was last added with, under both backends. */
  lemma {:induction false} DetailsAreTheLatestSqlite(faces: Faces, ops: seq<Op>, id: FaceId)
    requires id in RunSqlite(faces, ops)
    ensures id in faces || LastAdd(ops, id) >= 0
    ensures RunSqlite(faces, ops)[id].details == LatestDetails(faces, ops, id)
    decreases |ops|
  {
    if ops != [] {
      DetailsAreTheLatestSqlite(Sqlite(faces, ops[0]).0, ops[1..], id);
      LastAddOfRest(ops, id);
    }
  }

  lemma {:induction false} DetailsAreTheLatestPg(faces: Faces, ops: seq<Op>, id: FaceId)
    requires id in RunPg(faces, ops)
    ensures id in faces || LastAdd(ops, id) >= 0
    ensures RunPg(faces, ops)[id].details == LatestDetails(faces, ops, id)
    decreases |ops|
  {
    if ops != [] {
      DetailsAreTheLatestPg(Pg(faces, ops[0]).0, ops[1..], id);
      LastAddOfRest(ops, id);
    }
  }

  function Restricted(faces: Faces, ids: set<FaceId>): Faces {
    map id | id in faces && id in ids :: faces[id]
  }

  /** After batch 0 and any further batches, in any split, order or repetition, and with any
      adds, deletes and purges in between, the SQLite purge leaves of what is stored exactly
      the faces that some batch named or that were added since batch 0; it answers how many
      it dropped. */
  lemma SqlitePurgeLeaves(start: Faces, ids: seq<FaceId>, ops: seq<Op>)
    requires SameSession(ops)
    ensures var stored := RunSqlite(Sqlite(start, SyncBatch(ids, 0)).0, ops);
            var (left, dropped) := Sqlite(stored, PurgeAbsent);
            && left == Restricted(stored, IdSet(ids) + Named(ops) + Added(ops))
            && dropped == |stored| - |left|
  {
    var begun := Sqlite(start, SyncBatch(ids, 0)).0;
    var stored := RunSqlite(begun, ops);
    forall id | id in stored ensures stored[id].present <==> id in IdSet(ids) + Named(ops) + Added(ops) {
      FlagsSqlite(begun, ops, id);
      StoredOrAdded(begun, ops, id);
      assert id in begun ==> (id in Present(begun) <==> id in IdSet(ids));
    }
    DroppedCount(stored);
  }

  /** Under PostgreSQL, only faces that were not stored when they were added are protected
      by having been added: replacing a stored face does not set its flag. */
  lemma PgPurgeLeaves(start: Faces, ids: seq<FaceId>, ops: seq<Op>)
    requires SameSession(ops)
    ensures var begun := Pg(start, SyncBatch(ids, 0)).0;
            var stored := RunPg(begun, ops);
            var (left, dropped) := Pg(stored, PurgeAbsent);
            && left == Restricted(stored, IdSet(ids) + Named(ops) + Inserted(begun, ops))
            && dropped == |stored| - |left|
  {
    var begun := Pg(start, SyncBatch(ids, 0)).0;
    var stored := RunPg(begun, ops);
    forall id | id in stored ensures stored[id].present <==> id in IdSet(ids) + Named(ops) + Inserted(begun, ops) {
      FlagsPg(begun, ops, id);
      StoredOrInserted(begun, ops, id);
      assert id in begun ==> (id in Present(begun) <==> id in IdSet(ids));
    }
    DroppedCount(stored);
  }

  lemma DroppedCount(faces: Faces)
    ensures |Absent(faces)| == |faces| - |Kept(faces)|
  {
    assert Kept(faces).Keys == faces.Keys - Absent(faces);
    assert faces.Keys == Kept(faces).Keys + Absent(faces);
  }

  /** So the purges of the two backends, after the same session, keep the same faces if and
      only if every stored face that was replaced in the session was also named by a batch. */
  lemma PurgesAgreeExactlyWhen(start: Faces, ids: seq<FaceId>, ops: seq<Op>)
    requires SameSession(ops) && PurgeAbsent !in ops
    ensures var begun := Pg(start, SyncBatch(ids, 0)).0;
            var stored := RunPg(begun, ops);
            && RunSqlite(begun, ops).Keys == stored.Keys
            && (Kept(RunSqlite(begun, ops)).Keys == Kept(stored).Keys
                <==> forall id | id in stored && id in Added(ops) && id !in Inserted(begun, ops) :: id in IdSet(ids) + Named(ops))
  {
    var begun := Pg(start, SyncBatch(ids, 0)).0;
    assert begun == Sqlite(start, SyncBatch(ids, 0)).0;
    SameFacesStored(begun, begun, ops);
    SqlitePurgeLeaves(start, ids, ops);
    PgPurgeLeaves(start, ids, ops);
    InsertedAreAdded(begun, ops);
    var stored := RunPg(begun, ops);
    var a, b := Kept(RunSqlite(begun, ops)).Keys, Kept(stored).Keys;
    forall id | id in stored && id in Added(ops) && id !in Inserted(begun, ops) && id !in IdSet(ids) + Named(ops)
      ensures id in a && id !in b
    {
    }
    assert b <= a;
    assert forall id | id in a && id !in b :: id in stored && id in Added(ops) && id !in Inserted(begun, ops);
  }

  lemma {:induction false} SameFacesStored(a: Faces, b: Faces, ops: seq<Op>)
    requires a.Keys == b.Keys && PurgeAbsent !in ops
    ensures RunSqlite(a, ops).Keys == RunPg(b, ops).Keys
    decreases |ops|
  {
    if ops != [] {
      assert ops[0] in ops;
      var a1, b1 := Sqlite(a, ops[0]).0, Pg(b, ops[0]).0;
      assert a1.Keys == b1.Keys;
      SameFacesStored(a1, b1, ops[1..]);
    }
  }

  lemma {:induction false} InsertedAreAdded(faces: Faces, ops: seq<Op>)
    ensures Inserted(faces, ops) <= Added(ops)
    decreases |ops|
  {
    if ops != [] { InsertedAreAdded(Pg(faces, ops[0]).0, ops[1..]); }
  }

  /** Without any batch 0 since the store was empty, a purge drops nothing: flags are born
      set, and only batch 0 clears them. */
  lemma PurgeBeforeSyncIsSafe(ops: seq<Op>)
    requires SameSession(ops)
    ensures Sqlite(RunSqlite(map[], ops), PurgeAbsent) == (RunSqlite(map[], ops), 0)
    ensures Pg(RunPg(map[], ops), PurgeAbsent) == (RunPg(map[], ops), 0)
  {
    var a, b := RunSqlite(map[], ops), RunPg(map[], ops);
    forall id | id in a ensures a[id].present {
      FlagsSqlite(map[], ops, id);
      StoredOrAdded(map[], ops, id);
    }
    forall id | id in b ensures b[id].present {
      FlagsPg(map[], ops, id);
      StoredOrInserted(map[], ops, id);
    }
    assert Kept(a) == a && Kept(b) == b;
    assert Absent(a) == {} && Absent(b) == {};
  }

  // ---------------------------------------------------------------------
  // Splitting the list of known faces into batches
  // ---------------------------------------------------------------------

  predicate OnlyBatches(ops: seq<Op>) {
    forall i | 0 <= i < |ops| :: ops[i].SyncBatch? && ops[i].batch != 0
  }

  lemma {:induction false} BatchesOnlySetFlags(faces: Faces, ops: seq<Op>)
    requires OnlyBatches(ops)
    ensures RunSqlite(faces, ops).Keys == faces.Keys
    ensures forall id | id in faces :: RunSqlite(faces, ops)[id].details == faces[id].details
    ensures RunPg(faces, ops) == RunSqlite(faces, ops)
    ensures Added(ops) == {}
    decreases |ops|
  {
    if ops != [] { BatchesOnlySetFlags(Sqlite(faces, ops[0]).0, ops[1..]); }
  }

  lemma BatchesKeep(start: Faces, ids: seq<FaceId>, ops: seq<Op>)
    requires OnlyBatches(ops)
    ensures var stored := RunSqlite(Sqlite(start, SyncBatch(ids, 0)).0, ops);
            && Kept(stored) == (map id | id in start && id in IdSet(ids) + Named(ops) :: Face(start[id].details, true))
            && |Absent(stored)| == |start| - |Kept(stored)|
  {
    var begun := Sqlite(start, SyncBatch(ids, 0)).0;
    var stored := RunSqlite(begun, ops);
    BatchesOnlySetFlags(begun, ops);
    DroppedCount(stored);
    assert stored.Keys == start.Keys;
    assert |stored| == |stored.Keys| == |start|;
    forall id | id in stored
      ensures stored[id].details == start[id].details && (stored[id].present <==> id in IdSet(ids) + Named(ops))
    {
      FlagsSqlite(begun, ops, id);
      assert id in Present(begun) <==> id in IdSet(ids);
    }
  }

  /** The purge cannot tell how the same ids were cut into batches, in which order they
      came or how often. */
  lemma SplitDoesNotMatter(start: Faces, ids: seq<FaceId>, ops: seq<Op>, ids': seq<FaceId>, ops': seq<Op>)
    requires OnlyBatches(ops) && OnlyBatches(ops')
    requires IdSet(ids) + Named(ops) == IdSet(ids') + Named(ops')
    ensures Sqlite(RunSqlite(Sqlite(start, SyncBatch(ids, 0)).0, ops), PurgeAbsent)
         == Sqlite(RunSqlite(Sqlite(start, SyncBatch(ids', 0)).0, ops'), PurgeAbsent)
  {
    BatchesKeep(start, ids, ops);
    BatchesKeep(start, ids', ops');
  }
}
