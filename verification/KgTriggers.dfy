/**
 The two triggers that keep an entity's cached name and trigrams equal to what its document says
 (36e9220ab794), including when the second one's UPDATE fires the first, and across the id rename
 of 12635f6655b7, whose UPDATE of document_id fires neither.
 */
module KgTriggers {
  import opened Lists
  import opened Outcomes

  const TRUNCATE_LENGTH := 1000

  /** `lower` and `show_trgm` are PostgreSQL's: the model takes any functions for them. */
  datatype Sql = Sql(lower: string -> string, trgm: string -> set<string>)

  type Documents = map<string, string>    // id -> semantic_id

  datatype Entity = Entity(document: Option<string>, kind: string, name: string, trigrams: set<string>)

  datatype Store = Store(documents: Documents, entities: map<string, Entity>)

  predicate IsAlphanumeric(c: char) { 'a' <= c <= 'z' || '0' <= c <= '9' }

  /** `regexp_replace(name, '[^a-z0-9]+', '', 'g')`. */
  function Cleaned(name: string): (r: string)
    ensures |r| <= |name| && forall c | c in r :: IsAlphanumeric(c)
  {
    if name == "" then ""
    else (if IsAlphanumeric(name[0]) then [name[0]] else "") + Cleaned(name[1..])
  }

  function Truncated(name: string): (r: string)
    ensures |r| <= TRUNCATE_LENGTH && r <= name
  {
    if |name| > TRUNCATE_LENGTH then name[..TRUNCATE_LENGTH] else name
  }

  function Trigrams(sql: Sql, name: string): set<string> {
    (sql.trgm)(Truncated(Cleaned(name)))
  }

  // ---------------------------------------------------------------- the triggers

  /** `update_kg_entity_name`, before an insert or an update of name: None when the name becomes NULL. */
  function BeforeEntity(sql: Sql, documents: Documents, e: Entity): Option<Entity> {
    if e.document.Some? && e.document.value !in documents then None
    else
      var name := if e.document.Some? then (sql.lower)(documents[e.document.value]) else (sql.lower)(e.name);
      Some(e.(name := name, trigrams := Trigrams(sql, name)))
  }

  /** What the UPDATE inside `update_kg_entity_name_from_doc` assigns, before the first trigger sees it. */
  function Assigned(sql: Sql, e: Entity, semanticId: string): Entity {
    var name := (sql.lower)(semanticId);
    e.(name := name, trigrams := Trigrams(sql, name))
  }

  /** The row the nested UPDATE stores: the first trigger runs on what the second one assigned. */
  function AfterDocument(sql: Sql, documents: Documents, id: string, e: Entity): Option<Entity>
    requires id in documents
  {
    if e.document == Some(id) then BeforeEntity(sql, documents, Assigned(sql, e, documents[id])) else Some(e)
  }

  // ---------------------------------------------------------------- statements

  datatype Statement =
    | InsertEntity(key: string, row: Entity)
    | RenameEntity(key: string, name: string)
    | UpdateSemanticId(id: string, semanticId: string)
    | InsertDocument(id: string, semanticId: string)
    | DeleteDocument(id: string)
    | RenameDocument(from: string, to: string)      // copy, repoint the entities, drop the old row

  function Repointed(e: Entity, from: string, to: string): Entity {
    if e.document == Some(from) then e.(document := Some(to)) else e
  }

  /** What a statement writes: None when a row is missing, is there already, or gets no name. */
  function Effect(sql: Sql, s: Store, st: Statement): Option<Store> {
    match st
    case InsertEntity(key, row) =>
      (match BeforeEntity(sql, s.documents, row)
       case Some(stored) => if key in s.entities then None else Some(s.(entities := s.entities[key := stored]))
       case None => None)
    case RenameEntity(key, name) =>
      if key !in s.entities then None
      else (match BeforeEntity(sql, s.documents, s.entities[key].(name := name))
            case Some(stored) => Some(s.(entities := s.entities[key := stored]))
            case None => None)
    case UpdateSemanticId(id, semanticId) =>
      if id !in s.documents then None
      else
        var documents := s.documents[id := semanticId];
        if exists k :: k in s.entities && AfterDocument(sql, documents, id, s.entities[k]).None? then None
        else Some(Store(documents, map k | k in s.entities :: AfterDocument(sql, documents, id, s.entities[k]).value))
    case InsertDocument(id, semanticId) =>
      if id in s.documents then None else Some(s.(documents := s.documents[id := semanticId]))
    case DeleteDocument(id) => if id !in s.documents then None else Some(s.(documents := s.documents - {id}))
    case RenameDocument(from, to) =>
      if from !in s.documents || to in s.documents then None
      else Some(Store(s.documents[to := s.documents[from]] - {from},
                      map k | k in s.entities :: Repointed(s.entities[k], from, to)))
  }

  /** The foreign key of entities to documents; a deletion does not cascade. */
  predicate DocumentsExist(s: Store) {
    forall k | k in s.entities :: s.entities[k].document.Some? ==> s.entities[k].document.value in s.documents
  }

  /** `uq_kg_entity_name_type_doc` takes two rows for one; a row without document equals no other. */
  predicate Collide(e: Entity, f: Entity) {
    e.document.Some? && e.document == f.document && e.kind == f.kind && e.name == f.name
  }

  predicate NoCollision(s: Store) {
    forall j, k | j in s.entities && k in s.entities && j != k :: !Collide(s.entities[j], s.entities[k])
  }

  predicate Accepted(sql: Sql, s: Store, st: Statement) {
    Effect(sql, s, st).Some? && DocumentsExist(Effect(sql, s, st).value) && NoCollision(Effect(sql, s, st).value)
  }

  /** The store after a statement; one that violates a constraint changes nothing. */
  function After(sql: Sql, s: Store, st: Statement): Store {
    if Accepted(sql, s, st) then Effect(sql, s, st).value else s
  }

  // ---------------------------------------------------------------- the invariant

  /** The cached columns of one entity say what its document says. */
  ghost predicate InSync(sql: Sql, documents: Documents, e: Entity) {
    && e.trigrams == Trigrams(sql, e.name)
    && (e.document.Some? ==> e.document.value in documents && e.name == (sql.lower)(documents[e.document.value]))
  }

  ghost predicate Inv(sql: Sql, s: Store) {
    NoCollision(s) && forall k | k in s.entities :: InSync(sql, s.documents, s.entities[k])
  }

  /** The two triggers compute the same thing: re-firing the first changes nothing the second assigned. */
  lemma {:induction false} RefiringAgrees(sql: Sql, documents: Documents, id: string, e: Entity)
    requires id in documents && e.document == Some(id)
    ensures AfterDocument(sql, documents, id, e) == Some(Assigned(sql, e, documents[id]))
    ensures InSync(sql, documents, Assigned(sql, e, documents[id]))
  {}

  /** The first trigger leaves any row it accepts in step with its document, whatever was written. */
  lemma {:induction false} BeforeEntitySyncs(sql: Sql, documents: Documents, e: Entity)
    ensures BeforeEntity(sql, documents, e).None? <==> e.document.Some? && e.document.value !in documents
    ensures BeforeEntity(sql, documents, e).Some? ==>
              var stored := BeforeEntity(sql, documents, e).value;
              InSync(sql, documents, stored) && stored.document == e.document
  {}

  ghost predicate Referenced(s: Store, id: string) {
    exists k :: k in s.entities && s.entities[k].document == Some(id)
  }

  /** Every statement keeps the invariant: whatever it leaves out of step is refused. */
  lemma {:induction false} StatementKeepsInv(sql: Sql, s: Store, st: Statement)
    requires Inv(sql, s)
    ensures Inv(sql, After(sql, s, st))
  {
    if Accepted(sql, s, st) {
      var after := After(sql, s, st);
      forall k | k in after.entities
        ensures InSync(sql, after.documents, after.entities[k])
      {
        EntityStaysInSync(sql, s, st, k);
      }
    }
  }

  lemma {:induction false} EntityStaysInSync(sql: Sql, s: Store, st: Statement, k: string)
    requires Inv(sql, s) && Accepted(sql, s, st) && k in Effect(sql, s, st).value.entities
    ensures InSync(sql, Effect(sql, s, st).value.documents, Effect(sql, s, st).value.entities[k])
  {
    if k in s.entities { assert InSync(sql, s.documents, s.entities[k]); }
    match st {
      case UpdateSemanticId(id, semanticId) => UpdateStaysInSync(sql, s, id, semanticId, k);
      case RenameDocument(from, to) => CopyStaysInSync(sql, s, from, to, k);
      case DeleteDocument(id) => DropStaysInSync(sql, s, id, k);
      case _ =>
    }
  }

  lemma {:induction false} UpdateStaysInSync(sql: Sql, s: Store, id: string, semanticId: string, k: string)
    requires k in s.entities && InSync(sql, s.documents, s.entities[k])
    requires Effect(sql, s, UpdateSemanticId(id, semanticId)).Some?
    ensures var after := Effect(sql, s, UpdateSemanticId(id, semanticId)).value;
            k in after.entities && InSync(sql, after.documents, after.entities[k])
  {
  }

  lemma {:induction false} CopyStaysInSync(sql: Sql, s: Store, from: string, to: string, k: string)
    requires k in s.entities && InSync(sql, s.documents, s.entities[k])
    requires Effect(sql, s, RenameDocument(from, to)).Some?
    ensures var after := Effect(sql, s, RenameDocument(from, to)).value;
            k in after.entities && InSync(sql, after.documents, after.entities[k])
  {
  }

  lemma {:induction false} DropStaysInSync(sql: Sql, s: Store, id: string, k: string)
    requires k in s.entities && InSync(sql, s.documents, s.entities[k]) && Accepted(sql, s, DeleteDocument(id))
    ensures InSync(sql, s.documents - {id}, s.entities[k])
  {
    assert Effect(sql, s, DeleteDocument(id)).value.entities[k] == s.entities[k];
  }

  /** Some entity has this document and this kind. */
  ghost predicate Taken(s: Store, id: string, kind: string) {
    exists k :: k in s.entities && s.entities[k].document == Some(id) && s.entities[k].kind == kind
  }

  /** What has to hold of the tables for a statement to go through. */
  ghost predicate Permitted(s: Store, st: Statement) {
    match st
    case InsertEntity(key, row) =>
      && key !in s.entities
      && (row.document.Some? ==> row.document.value in s.documents && !Taken(s, row.document.value, row.kind))
    case RenameEntity(key, name) => key in s.entities
    case UpdateSemanticId(id, semanticId) => id in s.documents
    case InsertDocument(id, semanticId) => id !in s.documents
    case DeleteDocument(id) => id in s.documents && !Referenced(s, id)
    case RenameDocument(from, to) => from in s.documents && to !in s.documents
  }

  /**
   Exactly which statements are refused while the cache is right. As the triggers give all entities of a
   document one name, the unique constraint on name, kind and document allows one entity of a kind for each.
   */
  lemma {:induction false} AcceptedIff(sql: Sql, s: Store, st: Statement)
    requires Inv(sql, s)
    ensures Accepted(sql, s, st) <==> Permitted(s, st)
  {
    match st {
      case InsertEntity(key, row) => InsertAccepted(sql, s, key, row);
      case RenameEntity(key, name) => RenameAccepted(sql, s, key, name);
      case UpdateSemanticId(id, semanticId) => if id in s.documents { UpdateAccepted(sql, s, id, semanticId); }
      case RenameDocument(from, to) => CopyAccepted(sql, s, from, to);
      case _ => DocumentAccepted(sql, s, st);
    }
  }

  lemma {:induction false} RenameAccepted(sql: Sql, s: Store, key: string, name: string)
    requires Inv(sql, s)
    ensures Accepted(sql, s, RenameEntity(key, name)) <==> key in s.entities
  {
    assert forall k | k in s.entities :: InSync(sql, s.documents, s.entities[k]);
  }

  lemma {:induction false} RepointedApart(sql: Sql, s: Store, from: string, to: string, j: string, k: string)
    requires Inv(sql, s) && to !in s.documents && j in s.entities && k in s.entities && j != k
    ensures !Collide(Repointed(s.entities[j], from, to), Repointed(s.entities[k], from, to))
  {
    assert InSync(sql, s.documents, s.entities[j]) && InSync(sql, s.documents, s.entities[k]);
    assert !Collide(s.entities[j], s.entities[k]);
  }

  lemma {:induction false} CopyAccepted(sql: Sql, s: Store, from: string, to: string)
    requires Inv(sql, s)
    ensures Accepted(sql, s, RenameDocument(from, to)) <==> from in s.documents && to !in s.documents
  {
    if from in s.documents && to !in s.documents {
      var after := Effect(sql, s, RenameDocument(from, to)).value;
      forall k | k in after.entities
        ensures after.entities[k].document.Some? ==> after.entities[k].document.value in after.documents
      {
        assert InSync(sql, s.documents, s.entities[k]);
      }
      forall j, k | j in after.entities && k in after.entities && j != k
        ensures !Collide(after.entities[j], after.entities[k])
      {
        RepointedApart(sql, s, from, to, j, k);
      }
    }
  }

  lemma {:induction false} DocumentAccepted(sql: Sql, s: Store, st: Statement)
    requires Inv(sql, s) && (st.InsertDocument? || st.DeleteDocument?)
    ensures Accepted(sql, s, st) <==> Permitted(s, st)
  {
    assert forall k | k in s.entities :: InSync(sql, s.documents, s.entities[k]);
  }

  lemma {:induction false} InsertAccepted(sql: Sql, s: Store, key: string, row: Entity)
    requires Inv(sql, s)
    ensures Accepted(sql, s, InsertEntity(key, row)) <==> Permitted(s, InsertEntity(key, row))
  {
    assert forall k | k in s.entities :: InSync(sql, s.documents, s.entities[k]);
    var effect := Effect(sql, s, InsertEntity(key, row));
    if effect.Some? && row.document.Some? && Taken(s, row.document.value, row.kind) {
      var k :| k in s.entities && s.entities[k].document == row.document && s.entities[k].kind == row.kind;
      assert Collide(effect.value.entities[k], effect.value.entities[key]);
    }
  }

  /** The row of an entity after its document got a new semantic id. */
  function NewRow(sql: Sql, s: Store, id: string, semanticId: string, k: string): Entity
    requires k in s.entities
  {
    if s.entities[k].document == Some(id) then Assigned(sql, s.entities[k], semanticId) else s.entities[k]
  }

  lemma {:induction false} UpdatedRow(sql: Sql, s: Store, id: string, semanticId: string, k: string)
    requires id in s.documents && k in s.entities
    ensures AfterDocument(sql, s.documents[id := semanticId], id, s.entities[k])
                == Some(NewRow(sql, s, id, semanticId, k))
  {
    if s.entities[k].document == Some(id) {
      RefiringAgrees(sql, s.documents[id := semanticId], id, s.entities[k]);
    }
  }

  lemma {:induction false} UpdateIs(sql: Sql, s: Store, id: string, semanticId: string)
    requires id in s.documents
    ensures Effect(sql, s, UpdateSemanticId(id, semanticId))
         == Some(Store(s.documents[id := semanticId], map k | k in s.entities :: NewRow(sql, s, id, semanticId, k)))
  {
    forall k | k in s.entities
      ensures AfterDocument(sql, s.documents[id := semanticId], id, s.entities[k])
                  == Some(NewRow(sql, s, id, semanticId, k))
    {
      UpdatedRow(sql, s, id, semanticId, k);
    }
    assert Effect(sql, s, UpdateSemanticId(id, semanticId)).value.entities
        == map k | k in s.entities :: NewRow(sql, s, id, semanticId, k);
  }

  /** Entities of one document and kind that do not collide before do not collide after. */
  lemma {:induction false} NewRowsApart(sql: Sql, s: Store, id: string, semanticId: string, j: string, k: string)
    requires Inv(sql, s) && j in s.entities && k in s.entities && j != k
    ensures !Collide(NewRow(sql, s, id, semanticId, j), NewRow(sql, s, id, semanticId, k))
  {
    assert InSync(sql, s.documents, s.entities[j]) && InSync(sql, s.documents, s.entities[k]);
    assert !Collide(s.entities[j], s.entities[k]);
  }

  lemma {:induction false} UpdateAccepted(sql: Sql, s: Store, id: string, semanticId: string)
    requires Inv(sql, s) && id in s.documents
    ensures Accepted(sql, s, UpdateSemanticId(id, semanticId))
  {
    UpdateIs(sql, s, id, semanticId);
    var after := Effect(sql, s, UpdateSemanticId(id, semanticId)).value;
    forall j, k | j in after.entities && k in after.entities && j != k
      ensures !Collide(after.entities[j], after.entities[k])
    {
      NewRowsApart(sql, s, id, semanticId, j, k);
    }
    forall k | k in after.entities
      ensures after.entities[k].document.Some? ==> after.entities[k].document.value in after.documents
    {
      assert InSync(sql, s.documents, s.entities[k]);
    }
  }

  function AfterAll(sql: Sql, s: Store, sts: seq<Statement>): Store {
    if sts == [] then s else After(sql, AfterAll(sql, s, sts[..|sts| - 1]), sts[|sts| - 1])
  }

  /** The cache is right after every sequence of statements. */
  lemma {:induction false} CacheStaysRight(sql: Sql, s: Store, sts: seq<Statement>)
    requires Inv(sql, s)
    ensures Inv(sql, AfterAll(sql, s, sts))
  {
    if sts != [] {
      var last := |sts| - 1;
      CacheStaysRight(sql, s, sts[..last]);
      StatementKeepsInv(sql, AfterAll(sql, s, sts[..last]), sts[last]);
    }
  }

  /** A new semantic id reaches exactly the entities of that document. */
  lemma {:induction false} SemanticIdReachesItsEntities(sql: Sql, s: Store, id: string, semanticId: string, k: string)
    requires Inv(sql, s) && id in s.documents && k in s.entities
    ensures var after := After(sql, s, UpdateSemanticId(id, semanticId));
            && after.documents == s.documents[id := semanticId]
            && k in after.entities
            && after.entities[k] == NewRow(sql, s, id, semanticId, k)
  {
    UpdateAccepted(sql, s, id, semanticId);
    UpdateIs(sql, s, id, semanticId);
  }

  // ---------------------------------------------------------------- what each statement stores

  lemma {:induction false} CleanedPicks(name: string)
    ensures PicksOut(name, Cleaned(name), IsAlphanumeric)
  {
    if name != "" {
      CleanedPicks(name[1..]);
      if IsAlphanumeric(name[0]) {
        assert Cleaned(name)[1..] == Cleaned(name[1..]);
      } else {
        assert Cleaned(name) == "" + Cleaned(name[1..]) == Cleaned(name[1..]);
      }
    }
  }

  /** The trigrams are those of the alphanumeric characters of the name, in order, the first thousand of them. */
  lemma {:induction false} TrigramsOf(sql: Sql, name: string, cleaned: string)
    requires PicksOut(name, cleaned, IsAlphanumeric)
    ensures Trigrams(sql, name)
         == (sql.trgm)(if |cleaned| > TRUNCATE_LENGTH then cleaned[..TRUNCATE_LENGTH] else cleaned)
  {
    CleanedPicks(name);
    PicksOutOne(name, Cleaned(name), cleaned, IsAlphanumeric);
  }

  /** `e` is what was written, under the name its document gives it, or its own in lower case without one. */
  ghost predicate IsStored(sql: Sql, documents: Documents, written: Entity, e: Entity) {
    && e.document == written.document && e.kind == written.kind
    && (written.document.None? ==> e.name == (sql.lower)(written.name))
    && (written.document.Some? ==>
         written.document.value in documents && e.name == (sql.lower)(documents[written.document.value]))
    && e.trigrams == Trigrams(sql, e.name)
  }

  /** Exactly one entity is stored or changed. */
  ghost predicate OnlyEntity(s: Store, after: Store, key: string) {
    && after.documents == s.documents && after.entities.Keys == s.entities.Keys + {key}
    && forall k | k in s.entities && k != key :: after.entities[k] == s.entities[k]
  }

  lemma {:induction false} InsertStores(sql: Sql, s: Store, key: string, row: Entity)
    requires Accepted(sql, s, InsertEntity(key, row))
    ensures var after := After(sql, s, InsertEntity(key, row));
            OnlyEntity(s, after, key) && IsStored(sql, s.documents, row, after.entities[key])
  {}

  lemma {:induction false} RenameStores(sql: Sql, s: Store, key: string, name: string)
    requires Accepted(sql, s, RenameEntity(key, name))
    ensures var after := After(sql, s, RenameEntity(key, name));
            key in s.entities && OnlyEntity(s, after, key)
            && IsStored(sql, s.documents, s.entities[key].(name := name), after.entities[key])
  {}

  /** Inserting and dropping documents leaves the entities alone; renaming one changes where its entities point. */
  lemma {:induction false} DocumentStatements(sql: Sql, s: Store, st: Statement)
    requires Accepted(sql, s, st)
    ensures st.InsertDocument? ==> After(sql, s, st) == Store(s.documents[st.id := st.semanticId], s.entities)
    ensures st.DeleteDocument? ==> After(sql, s, st) == Store(s.documents - {st.id}, s.entities)
    ensures st.RenameDocument? ==>
              var after := After(sql, s, st);
              && st.from in s.documents && after.documents == s.documents[st.to := s.documents[st.from]] - {st.from}
              && after.entities.Keys == s.entities.Keys
              && forall k | k in s.entities ::
                   after.entities[k] == s.entities[k].(document :=
                     if s.entities[k].document == Some(st.from) then Some(st.to) else s.entities[k].document)
  {}

  /** A new semantic id names the entities of that document anew and changes nothing else of any. */
  lemma {:induction false} UpdateStores(sql: Sql, s: Store, id: string, semanticId: string, k: string)
    requires Inv(sql, s) && id in s.documents && k in s.entities
    ensures var after := After(sql, s, UpdateSemanticId(id, semanticId));
            && k in after.entities
            && after.entities[k].document == s.entities[k].document && after.entities[k].kind == s.entities[k].kind
            && (s.entities[k].document == Some(id) ==> after.entities[k].name == (sql.lower)(semanticId))
            && (s.entities[k].document != Some(id) ==> after.entities[k] == s.entities[k])
  {
    SemanticIdReachesItsEntities(sql, s, id, semanticId, k);
  }

  /** An entity that belongs to a document cannot be renamed: the trigger puts the name back. */
  lemma {:induction false} DocumentNameWins(sql: Sql, s: Store, key: string, name: string)
    requires Inv(sql, s) && key in s.entities && s.entities[key].document.Some?
    ensures After(sql, s, RenameEntity(key, name)) == s
  {
    var e := s.entities[key];
    assert InSync(sql, s.documents, e);
    assert BeforeEntity(sql, s.documents, e.(name := name)) == Some(e);
    assert s.entities[key := e] == s.entities;
  }

  /**
   Pointing an entity at another document fires no trigger, so the cache stays right only if that
   document's lowered semantic id is the name already stored.
   */
  lemma {:induction false} RepointingIsSafeIff(sql: Sql, documents: Documents, e: Entity, to: string)
    requires InSync(sql, documents, e)
    ensures InSync(sql, documents, e.(document := Some(to)))
        <==> to in documents && (sql.lower)(documents[to]) == e.name
  {}

  // ---------------------------------------------------------------- the tables as the triggers see them

  class KgTables {
    const sql: Sql
    var documents: Documents
    var entities: map<string, Entity>

    ghost function View(): Store
      reads this
    {
      Store(documents, entities)
    }

    constructor (sql: Sql)
      ensures this.sql == sql && View() == Store(map[], map[]) && Inv(sql, View())
    {
      this.sql := sql;
      documents, entities := map[], map[];
    }

    /** The trigger body on NEW: false when the row it leaves violates NOT NULL on name. */
    method FireBeforeEntity(row: Entity) returns (ok: bool, stored: Entity)
      ensures ok <==> BeforeEntity(sql, documents, row).Some?
      ensures ok ==> stored == BeforeEntity(sql, documents, row).value
    {
      stored := row;
      if row.document.Some? {
        if row.document.value !in documents { return false, row; }
        stored := stored.(name := (sql.lower)(documents[row.document.value]));
      } else {
        stored := stored.(name := (sql.lower)(row.name));
      }
      var cleaned := Cleaned(stored.name);
      if |cleaned| > TRUNCATE_LENGTH { cleaned := cleaned[..TRUNCATE_LENGTH]; }
      stored := stored.(trigrams := (sql.trgm)(cleaned));
      ok := true;
    }

    /** Whether a row may be stored under the key beside all the others. */
    method Fits(key: string, row: Entity) returns (ok: bool)
      requires NoCollision(View())
      ensures ok <==> NoCollision(Store(documents, entities[key := row]))
    {
      ok := forall k | k in entities && k != key :: !Collide(entities[k], row);
      ghost var longer := entities[key := row];
      if !ok {
        ghost var k :| k in entities && k != key && Collide(entities[k], row);
        assert Collide(longer[k], longer[key]);
      } else {
        forall j, k | j in longer && k in longer && j != k ensures !Collide(longer[j], longer[k]) {
          assert j != key ==> longer[j] == entities[j];
          assert k != key ==> longer[k] == entities[k];
        }
      }
    }

    method InsertEntityRow(key: string, row: Entity)
      requires Inv(sql, View())
      modifies this`entities
      ensures View() == After(sql, old(View()), InsertEntity(key, row)) && Inv(sql, View())
    {
      StatementKeepsInv(sql, View(), InsertEntity(key, row));
      var ok, stored := FireBeforeEntity(row);
      var fits := Fits(key, stored);
      assert forall k | k in entities :: InSync(sql, documents, entities[k]);
      if ok && fits && key !in entities { entities := entities[key := stored]; }
    }

    method RenameEntityRow(key: string, name: string)
      requires Inv(sql, View())
      modifies this`entities
      ensures View() == After(sql, old(View()), RenameEntity(key, name)) && Inv(sql, View())
    {
      StatementKeepsInv(sql, View(), RenameEntity(key, name));
      assert forall k | k in entities :: InSync(sql, documents, entities[k]);
      if key in entities {
        var ok, stored := FireBeforeEntity(entities[key].(name := name));
        var fits := Fits(key, stored);
        if ok && fits { entities := entities[key := stored]; }
      }
    }

    /** Updates the document, then every entity row of it in turn, each through the first trigger. */
    method UpdateSemanticIdOf(id: string, semanticId: string)
      requires Inv(sql, View())
      modifies this
      ensures View() == After(sql, old(View()), UpdateSemanticId(id, semanticId))
      ensures Inv(sql, View())
    {
      ghost var start := View();
      StatementKeepsInv(sql, start, UpdateSemanticId(id, semanticId));
      if id !in documents { return; }
      documents := documents[id := semanticId];
      var todo := entities.Keys;
      while todo != {}
        invariant todo <= entities.Keys == start.entities.Keys
        invariant documents == start.documents[id := semanticId]
        invariant forall k | k in entities ::
          entities[k] == if k in todo then start.entities[k] else NewRow(sql, start, id, semanticId, k)
        decreases todo
      {
        var k :| k in todo;
        if entities[k].document == Some(id) {
          var row := Assigned(sql, entities[k], semanticId);
          RefiringAgrees(sql, documents, id, entities[k]);
          var ok, stored := FireBeforeEntity(row);
          if ok { entities := entities[k := stored]; }
        }
        todo := todo - {k};
      }
      SameStore(sql, start, id, semanticId, entities);
    }
  }

  lemma {:induction false} SameStore(sql: Sql, s: Store, id: string, semanticId: string, entities: map<string, Entity>)
    requires Inv(sql, s) && id in s.documents && entities.Keys == s.entities.Keys
    requires forall k | k in entities :: entities[k] == NewRow(sql, s, id, semanticId, k)
    ensures After(sql, s, UpdateSemanticId(id, semanticId)) == Store(s.documents[id := semanticId], entities)
  {
    UpdateAccepted(sql, s, id, semanticId);
    UpdateIs(sql, s, id, semanticId);
    assert entities == map k | k in s.entities :: NewRow(sql, s, id, semanticId, k);
  }
}
