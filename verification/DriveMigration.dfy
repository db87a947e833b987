/** The imperative Drive migration: its statements one by one, and the loop over the documents. */
module DriveMigration {
  import opened DriveIds
  import opened DriveLosses
  import opened DriveReferences

  /** A database as the foreign keys and primary keys keep it. */
  ghost predicate Sound(db: Db) { References(db) && KeysUnique(db) }

  /** The migration's connection: every statement replaces the database state. */
  class Migration {
    var db: Db
    var seen: set<string>

    constructor (db: Db)
      ensures this.db == db && seen == {}
    {
      this.db, seen := db, {};
    }

    /** `delete_document_from_db`: links first, then table by table, then the document. */
    method DeleteDocument(id: string)
      requires Intact(db)
      modifies this`db
      ensures db == Deleted(old(db), id) && Intact(db)
      ensures Sound(old(db)) ==> (References(db) <==> !UsedByOthers(old(db), id))
    {
      ghost var start := db;
      db := DeleteLinks(db, id);
      for k := 0 to TABLE_COUNT
        invariant Complete(start) && db == Cleared(start, id, k)
      {
        db := DeleteFrom(db, DeleteTable(k), id);
      }
      db := DeleteChunksLike(db, id);
      db := DropDocument(db, id);
      DeleteStaysIntact(start, id);
      if Sound(start) { DeletedReferencesIff(start, id); }
    }

    /** `update_document_id_in_database`: copy, repoint table by table, drop the old row. */
    method UpdateDocumentId(from: string, to: string)
      requires Intact(db) && from != to
      modifies this`db
      ensures db == UpdatedId(old(db), from, to) && Intact(db)
      ensures Sound(old(db)) ==> (References(db) <==> to !in old(db).documents || !UsedByOthers(old(db), from))
    {
      if to in db.documents {
        DeleteDocument(from);
        return;
      }
      Rename(from, to);
    }

    /** The copy-and-swap, once the new id is known to be free. */
    method Rename(from: string, to: string)
      requires Intact(db) && from != to
      modifies this`db
      ensures db == Renamed(old(db), from, to) && Intact(db)
      ensures References(old(db)) ==> References(db)
    {
      ghost var start := db;
      db := CopyDocument(db, from, to);
      for k := 0 to TABLE_COUNT
        invariant Complete(start) && db == Swapped(start, from, to, k)
      {
        db := RepointTable(db, TableAt(k), from, to);
      }
      db := RekeyChunks(db, from, to);
      db := DropDocument(db, from);
      RenameStaysIntact(start, from, to);
      if References(start) { RenameKeepsReferences(start, from, to, 0); }
    }

    /** The loop of `upgrade`. */
    method Upgrade(list: seq<string>, norm: Normalizer)
      requires Intact(db) && seen == {}
      modifies this
      ensures Intact(db)
      ensures Progress(db, seen) == Visited(old(db), list, norm)
      ensures Sound(old(db)) && Listed(old(db), list) ==> (References(db) <==> LosesNothingUsed(old(db), list, norm))
    {
      ghost var start := db;
      for k := 0 to |list|
        invariant Intact(db)
        invariant Progress(db, seen) == Visited(start, list[..k], norm)
      {
        assert list[..k + 1][..k] == list[..k];
        var canonical := norm(list[k]);
        if canonical in seen {
          DeleteDocument(list[k]);
        } else {
          seen := seen + {canonical};
          if list[k] != canonical {
            UpdateDocumentId(list[k], canonical);
          }
        }
      }
      assert list[..|list|] == list;
      if Sound(start) && Listed(start, list) { LoopReferencesIff(start, list, norm); }
    }
  }
}
