/** The PostgreSQL store: one table, one statement per operation. */
module PgStore {
  import opened Embeddings

  class PgVectorEmbeddingStore {
    var table: Faces

    constructor ()
      ensures table == map[]
    {
      table := map[];
    }

    method Add(id: FaceId, details: Details)
      modifies this
      ensures table == Pg(old(table), Op.Add(id, details)).0
      ensures id in table && table[id].details == details
      ensures table[id].present <==> id !in old(table) || old(table)[id].present
      ensures forall other | other != id ::
                && (other in table <==> other in old(table))
                && (other in table ==> table[other] == old(table)[other])
    {
      if id in table {
        table := table[id := table[id].(details := details)];
      } else {
        table := table[id := Face(details, true)];
      }
    }

    method Delete(id: FaceId)
      modifies this
      ensures table == Pg(old(table), Op.Delete(id)).0
      ensures id !in table
      ensures forall other | other != id ::
                && (other in table <==> other in old(table))
                && (other in table ==> table[other] == old(table)[other])
    {
      table := table - {id};
    }

    method DeleteMany(ids: seq<FaceId>) returns (deleted: nat)
      modifies this
      ensures (table, deleted) == Pg(old(table), Op.DeleteMany(ids))
      ensures deleted == |old(table)| - |table|
      ensures forall id :: id in table <==> id in old(table) && id !in ids
    {
      DeletedCount(table, ids);
      if ids == [] {
        assert table - IdSet(ids) == table && Selected(table.Keys, ids) == {};
        return 0;
      }
      deleted := |Selected(table.Keys, ids)|;
      table := table - IdSet(ids);
    }

    method SyncBatch(ids: seq<FaceId>, batch: int) returns (marked: nat)
      modifies this
      ensures (table, marked) == Pg(old(table), Op.SyncBatch(ids, batch))
      ensures marked == |set id | id in table && id in ids|
      ensures forall id | id in ids && id in table :: table[id].present
    {
      assert Reset(table).Keys == table.Keys;
      if batch == 0 {
        table := Reset(table);
      }
      marked := 0;
      if ids != [] {
        marked := |Selected(table.Keys, ids)|;
        table := Marked(table, ids);
      } else {
        assert Marked(table, ids) == table && Selected(table.Keys, ids) == {};
      }
    }

    method PurgeAbsent() returns (deleted: nat)
      modifies this
      ensures (table, deleted) == Pg(old(table), Op.PurgeAbsent)
      ensures deleted == |old(table)| - |table|
      ensures forall id :: id in table <==> id in old(table) && old(table)[id].present
      ensures forall id | id in table :: table[id] == old(table)[id]
    {
      KeptAreTheRest(table);
      deleted := |Absent(table)|;
      table := Kept(table);
    }
  }
}
