/**
 The references between the tables of the Drive migration that do not go by document id: relationships
 name entities, and personas name user files. The migration renames without harm to them; what it
 deletes may still be named.
 */
module DriveReferences {
  import opened DriveIds
  import opened Outcomes

  // ---------------------------------------------------------------- the references

  predicate NamesKey(row: Row, key: string) {
    row.ends.Some? && (row.ends.value.source == key || row.ends.value.target == key)
  }

  ghost predicate KeyExists(entities: Rows, key: string) { exists e :: e in entities && entities[e].key == key }

  /** Both nodes of every relationship are entities. */
  ghost predicate EndsExist(relationships: Rows, entities: Rows) {
    forall r, key | r in relationships && NamesKey(relationships[r], key) :: KeyExists(entities, key)
  }

  ghost predicate UniqueKeys(entities: Rows) {
    forall d, e | d in entities && e in entities && entities[d].key == entities[e].key :: d == e
  }

  ghost predicate PersonasExist(db: Db)
    requires Complete(db)
  {
    forall l | l in db.personaLinks :: db.personaLinks[l] in db.rows[UserFiles]
  }

  /** All foreign keys between these tables: to documents, search_doc and user_file rows, and both kinds of entity. */
  ghost predicate References(db: Db) {
    && Intact(db) && PersonasExist(db)
    && EndsExist(db.rows[KgRelationships], db.rows[KgEntities])
    && EndsExist(db.rows[KgRelationshipStaging], db.rows[KgEntityStaging])
  }

  /** The text id is the primary key of both entity tables. */
  ghost predicate KeysUnique(db: Db)
    requires Complete(db)
  {
    UniqueKeys(db.rows[KgEntities]) && UniqueKeys(db.rows[KgEntityStaging])
  }

  // ---------------------------------------------------------------- deletion

  /** Relationship `r` goes from or to an entity of the document. */
  ghost predicate NamesEntityOf(relationships: Rows, entities: Rows, r: nat, id: string) {
    r in relationships && exists e ::
        e in entities && entities[e].doc == Some(id) && NamesKey(relationships[r], entities[e].key)
  }

  ghost predicate SomeNames(relationships: Rows, entities: Rows, id: string) {
    exists r :: NamesEntityOf(relationships, entities, r, id)
  }

  /** A relationship that another document, or none, is the source of. */
  ghost predicate OthersName(relationships: Rows, entities: Rows, id: string) {
    exists r :: NamesEntityOf(relationships, entities, r, id) && relationships[r].doc != Some(id)
  }

  ghost predicate PersonaUses(db: Db, id: string)
    requires Complete(db)
  {
    exists l :: l in db.personaLinks && db.personaLinks[l] in db.rows[UserFiles]
                && db.rows[UserFiles][db.personaLinks[l]].doc == Some(id)
  }

  lemma {:induction false} KeyIsLeft(entities: Rows, id: string, e: nat)
    requires UniqueKeys(entities) && e in entities
    ensures KeyExists(Without(entities, id), entities[e].key) <==> entities[e].doc != Some(id)
  {
    assert e in Without(entities, id) <==> entities[e].doc != Some(id);
    assert forall d | d in Without(entities, id) && entities[d].key == entities[e].key :: d == e;
  }

  lemma {:induction false} EndsWithoutEntities(relationships: Rows, entities: Rows, id: string)
    requires EndsExist(relationships, entities) && UniqueKeys(entities)
    ensures EndsExist(relationships, Without(entities, id)) <==> !SomeNames(relationships, entities, id)
  {
    var left := Without(entities, id);
    if r :| NamesEntityOf(relationships, entities, r, id) {
      var e :| e in entities && entities[e].doc == Some(id) && NamesKey(relationships[r], entities[e].key);
      KeyIsLeft(entities, id, e);
    } else {
      forall r, key | r in relationships && NamesKey(relationships[r], key)
        ensures KeyExists(left, key)
      {
        assert KeyExists(entities, key);
        var e :| e in entities && entities[e].key == key;
        assert !NamesEntityOf(relationships, entities, r, id);
        assert e in left && left[e].key == key;
      }
    }
  }

  lemma {:induction false} EndsWithoutBoth(relationships: Rows, entities: Rows, id: string)
    requires EndsExist(relationships, entities) && UniqueKeys(entities)
    ensures EndsExist(Without(relationships, id), Without(entities, id)) <==> !OthersName(relationships, entities, id)
  {
    var left := Without(relationships, id);
    EndsWithoutEntities(left, entities, id);
    if r :| NamesEntityOf(relationships, entities, r, id) && relationships[r].doc != Some(id) {
      assert NamesEntityOf(left, entities, r, id);
    }
    if r :| NamesEntityOf(left, entities, r, id) {
      assert NamesEntityOf(relationships, entities, r, id) && relationships[r].doc != Some(id);
    }
  }

  /** The nodes of one kind of relationship after `k` statements: first entities go, then relationships. */
  lemma {:induction false} EndsAfter(relationships: Rows, entities: Rows, id: string, entityOrder: nat, order: nat,
                                     k: nat)
    requires EndsExist(relationships, entities) && UniqueKeys(entities) && entityOrder < order
    ensures EndsExist(RowsLeft(relationships, id, order, k), RowsLeft(entities, id, entityOrder, k)) <==>
              && (entityOrder < k <= order ==> !SomeNames(relationships, entities, id))
              && (order < k ==> !OthersName(relationships, entities, id))
  {
    EndsWithoutEntities(relationships, entities, id);
    EndsWithoutBoth(relationships, entities, id);
  }

  lemma {:induction false} PersonasAfter(db: Db, id: string, k: nat)
    requires References(db) && k <= TABLE_COUNT
    ensures PersonasExist(Cleared(db, id, k)) <==> (DeleteOrder(UserFiles) < k ==> !PersonaUses(db, id))
  {
    ClearedIs(db, id, k);
    var left := Cleared(db, id, k).rows[UserFiles];
    assert left == RowsLeft(db.rows[UserFiles], id, DeleteOrder(UserFiles), k);
    if DeleteOrder(UserFiles) < k && PersonaUses(db, id) {
      var l :| l in db.personaLinks && db.personaLinks[l] in db.rows[UserFiles]
               && db.rows[UserFiles][db.personaLinks[l]].doc == Some(id);
      assert db.personaLinks[l] !in left;
    }
  }

  /** After each statement of a deletion: exactly when all references still hold. */
  lemma {:induction false} ClearedReferencesIff(db: Db, id: string, k: nat)
    requires References(db) && KeysUnique(db) && k <= TABLE_COUNT
    ensures References(Cleared(db, id, k)) <==>
              && (5 <= k ==> !PersonaUses(db, id))
              && (6 <= k <= 7 ==> !SomeNames(db.rows[KgRelationships], db.rows[KgEntities], id))
              && (8 <= k ==> !OthersName(db.rows[KgRelationships], db.rows[KgEntities], id))
              && (7 <= k <= 8 ==> !SomeNames(db.rows[KgRelationshipStaging], db.rows[KgEntityStaging], id))
              && (9 <= k ==> !OthersName(db.rows[KgRelationshipStaging], db.rows[KgEntityStaging], id))
  {
    ClearStaysIntact(db, id, k);
    PersonasAfter(db, id, k);
    EndsAfter(db.rows[KgRelationships], db.rows[KgEntities], id, 5, 7, k);
    EndsAfter(db.rows[KgRelationshipStaging], db.rows[KgEntityStaging], id, 6, 8, k);
    ClearedRows(db, id, k);
  }

  lemma {:induction false} ClearedRows(db: Db, id: string, k: nat)
    requires Complete(db) && k <= TABLE_COUNT
    ensures Cleared(db, id, k).rows[KgEntities] == RowsLeft(db.rows[KgEntities], id, 5, k)
    ensures Cleared(db, id, k).rows[KgEntityStaging] == RowsLeft(db.rows[KgEntityStaging], id, 6, k)
    ensures Cleared(db, id, k).rows[KgRelationships] == RowsLeft(db.rows[KgRelationships], id, 7, k)
    ensures Cleared(db, id, k).rows[KgRelationshipStaging] == RowsLeft(db.rows[KgRelationshipStaging], id, 8, k)
  {
    ClearedTable(db, id, k, KgEntities);
    ClearedTable(db, id, k, KgEntityStaging);
    ClearedTable(db, id, k, KgRelationships);
    ClearedTable(db, id, k, KgRelationshipStaging);
  }

  lemma {:induction false} LastStatements(db: Db, id: string)
    requires References(db) && KeysUnique(db)
    ensures References(DeleteChunksLike(Cleared(db, id, TABLE_COUNT), id)) <==> References(Cleared(db, id, TABLE_COUNT))
    ensures References(Deleted(db, id)) <==> References(Cleared(db, id, TABLE_COUNT))
  {
    DeleteStaysIntact(db, id);
    ClearStaysIntact(db, id, TABLE_COUNT);
  }

  /** The names nothing outside the document may use. */
  ghost predicate UsedByOthers(db: Db, id: string)
    requires Complete(db)
  {
    || PersonaUses(db, id)
    || OthersName(db.rows[KgRelationships], db.rows[KgEntities], id)
    || OthersName(db.rows[KgRelationshipStaging], db.rows[KgEntityStaging], id)
  }

  /** The names nothing at all may use, the document's own relationships included. */
  ghost predicate Used(db: Db, id: string)
    requires Complete(db)
  {
    || PersonaUses(db, id)
    || SomeNames(db.rows[KgRelationships], db.rows[KgEntities], id)
    || SomeNames(db.rows[KgRelationshipStaging], db.rows[KgEntityStaging], id)
  }

  /**
   Once a deletion is through, all references hold if and only if no persona uses a file of the document
   and no relationship of another document names an entity of it.
   */
  lemma {:induction false} DeletedReferencesIff(db: Db, id: string)
    requires References(db) && KeysUnique(db)
    ensures References(Deleted(db, id)) <==> !UsedByOthers(db, id)
  {
    LastStatements(db, id);
    ClearedReferencesIff(db, id, TABLE_COUNT);
  }

  /** The state after each statement of the deletion has all references. */
  ghost predicate DeletionAccepted(db: Db, id: string)
    requires Complete(db)
  {
    && (forall k: nat | k <= TABLE_COUNT :: References(Cleared(db, id, k)))
    && References(DeleteChunksLike(Cleared(db, id, TABLE_COUNT), id)) && References(Deleted(db, id))
  }

  /**
   The foreign keys let every statement of a deletion through if and only if no persona uses a file of the
   document and no relationship names an entity of it: the entities go before the relationships do.
   */
  lemma {:induction false} DeletionAcceptedIff(db: Db, id: string)
    requires References(db) && KeysUnique(db)
    ensures DeletionAccepted(db, id) <==> !Used(db, id)
  {
    LastStatements(db, id);
    forall k: nat | k <= TABLE_COUNT
      ensures !Used(db, id) ==> References(Cleared(db, id, k))
    {
      ClearedReferencesIff(db, id, k);
    }
    ClearedReferencesIff(db, id, 5);
    ClearedReferencesIff(db, id, 7);
    assert DeletionAccepted(db, id) ==> References(Cleared(db, id, 5)) && References(Cleared(db, id, 7));
  }

  // ---------------------------------------------------------------- rename

  /** The same rows, with the same text ids and nodes. */
  ghost predicate SameNames(rows: Rows, after: Rows) {
    after.Keys == rows.Keys && forall i | i in rows :: after[i].key == rows[i].key && after[i].ends == rows[i].ends
  }

  lemma {:induction false} SameNamesKeepEnds(relationships: Rows, entities: Rows, relationships': Rows, entities': Rows)
    requires EndsExist(relationships, entities) && SameNames(relationships, relationships')
                && SameNames(entities, entities')
    ensures EndsExist(relationships', entities')
  {
    forall r, key | r in relationships' && NamesKey(relationships'[r], key)
      ensures KeyExists(entities', key)
    {
      assert NamesKey(relationships[r], key);
      assert KeyExists(entities, key);
      var e :| e in entities && entities[e].key == key;
      assert entities'[e].key == key;
    }
  }

  lemma {:induction false} SwapKeepsNames(db: Db, from: string, to: string, k: nat, t: Table)
    requires Complete(db) && k <= TABLE_COUNT
    ensures SameNames(db.rows[t], Swapped(db, from, to, k).rows[t])
  {
    SwappedTable(db, from, to, k, t);
  }

  lemma {:induction false} RenameKeepsNames(db: Db, from: string, to: string, t: Table)
    requires Complete(db) && !t.ChunkStats?
    ensures SameNames(db.rows[t], Renamed(db, from, to).rows[t])
  {
    RenamedRows(db, from, to, t);
  }

  lemma {:induction false} NamesKeepReferences(db: Db, after: Db)
    requires References(db) && Intact(after) && after.personaLinks == db.personaLinks
    requires forall t: Table | !t.ChunkStats? :: SameNames(db.rows[t], after.rows[t])
    ensures References(after)
  {
    SameNamesKeepEnds(db.rows[KgRelationships], db.rows[KgEntities], after.rows[KgRelationships],
        after.rows[KgEntities]);
    SameNamesKeepEnds(db.rows[KgRelationshipStaging], db.rows[KgEntityStaging],
                      after.rows[KgRelationshipStaging], after.rows[KgEntityStaging]);
  }

  /** After each statement of a rename all references hold. */
  lemma {:induction false} RenameKeepsReferences(db: Db, from: string, to: string, k: nat)
    requires References(db) && from != to && k <= TABLE_COUNT
    ensures References(Swapped(db, from, to, k))
    ensures References(RekeyChunks(Swapped(db, from, to, TABLE_COUNT), from, to))
    ensures References(Renamed(db, from, to))
  {
    SwapStaysIntact(db, from, to, k);
    RenameStaysIntact(db, from, to);
    SwappedRest(db, from, to, k);
    SwappedRest(db, from, to, TABLE_COUNT);
    forall t: Table | !t.ChunkStats?
      ensures SameNames(db.rows[t], Swapped(db, from, to, k).rows[t])
      ensures SameNames(db.rows[t], Swapped(db, from, to, TABLE_COUNT).rows[t])
      ensures SameNames(db.rows[t], Renamed(db, from, to).rows[t])
    {
      SwapKeepsNames(db, from, to, k, t);
      SwapKeepsNames(db, from, to, TABLE_COUNT, t);
      RenameKeepsNames(db, from, to, t);
    }
    NamesKeepReferences(db, Swapped(db, from, to, k));
    NamesKeepReferences(db, RekeyChunks(Swapped(db, from, to, TABLE_COUNT), from, to));
    NamesKeepReferences(db, Renamed(db, from, to));
  }

  // ---------------------------------------------------------------- deletions that break a reference

  const EMPTY: map<Table, Rows> :=
    map[CcPairs := map[], SearchDocs := map[], Feedback := map[], Tags := map[], UserFiles := map[],
        KgEntities := map[], KgEntityStaging := map[], KgRelationships := map[], KgRelationshipStaging := map[],
        ChunkStats := map[]]

  /** An entity of `id`, and a relationship from it to itself that `source` is the source of. */
  function OneRelationship(id: string, source: string, entity: string): Db {
    var rows := EMPTY[KgEntities := map[0 := Row(Some(id), entity, None, "")]];
    Db(map[id := Document("", ""), source := Document("", "")],
       rows[KgRelationships := map[0 := Row(Some(source), "", Some(Ends(entity, entity)), "")]],
       map[], map[], map[])
  }

  /** A file of `id` that a persona uses. */
  function OneFile(id: string): Db {
    Db(map[id := Document("", "")], EMPTY[UserFiles := map[0 := Row(Some(id), "", None, "")]], map[], map[],
        map[0 := 0])
  }

  lemma {:induction false} EmptyTables(t: Table)
    ensures t in EMPTY && EMPTY[t] == map[]
  {
    match t {
      case _ =>
    }
  }

  lemma {:induction false} OneRelationshipIsSound(id: string, source: string, entity: string)
    ensures var db := OneRelationship(id, source, entity);
            References(db) && KeysUnique(db) && NamesEntityOf(db.rows[KgRelationships], db.rows[KgEntities], 0, id)
  {
    var db := OneRelationship(id, source, entity);
    forall t: Table
      ensures t in db.rows && (t.KgEntities? || t.KgRelationships? || db.rows[t] == map[])
    {
      EmptyTables(t);
    }
    assert db.rows[KgEntities][0].key == entity;
    assert NamesKey(db.rows[KgRelationships][0], db.rows[KgEntities][0].key);
  }

  /**
   The deletion of a document whose entity a relationship names is refused at the entities; without the
   foreign key the relationship of another document would be left without its nodes.
   */
  lemma {:induction false} RelationshipBlocks(id: string, source: string, entity: string)
    ensures var db := OneRelationship(id, source, entity);
            && References(db) && KeysUnique(db) && !DeletionAccepted(db, id)
            && (References(Deleted(db, id)) <==> source == id)
  {
    var db := OneRelationship(id, source, entity);
    OneRelationshipIsSound(id, source, entity);
    OnlyRelationship(db, id, source);
    DeletionAcceptedIff(db, id);
    DeletedReferencesIff(db, id);
  }

  lemma {:induction false} OnlyRelationship(db: Db, id: string, source: string)
    requires Complete(db) && NamesEntityOf(db.rows[KgRelationships], db.rows[KgEntities], 0, id)
    requires db.rows[KgRelationships].Keys == {0} && db.rows[KgRelationships][0].doc == Some(source)
    requires db.rows[KgRelationshipStaging] == map[] && db.personaLinks == map[]
    ensures Used(db, id) && (UsedByOthers(db, id) <==> source != id)
  {}

  lemma {:induction false} OneFileIsSound(id: string)
    ensures References(OneFile(id)) && KeysUnique(OneFile(id)) && PersonaUses(OneFile(id), id)
  {
    var db := OneFile(id);
    forall t: Table
      ensures t in db.rows && (t.UserFiles? || db.rows[t] == map[])
    {
      EmptyTables(t);
    }
    assert 0 in db.personaLinks && db.rows[UserFiles][db.personaLinks[0]].doc == Some(id);
  }

  /** And that of a document whose file a persona uses is refused at the files. */
  lemma {:induction false} PersonaBlocks(id: string)
    ensures References(OneFile(id)) && KeysUnique(OneFile(id))
    ensures !DeletionAccepted(OneFile(id), id) && !References(Deleted(OneFile(id), id))
  {
    OneFileIsSound(id);
    DeletionAcceptedIff(OneFile(id), id);
    DeletedReferencesIff(OneFile(id), id);
  }
}
