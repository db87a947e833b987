/**
 The migration that gives Google Drive documents their canonical ids: a copy-and-swap rename, and
 the deletion of duplicates, across every table that refers to a document.
 */
module DriveIds {
  import opened DriveUrls
  import opened Outcomes
  import opened SqlText

  // ---------------------------------------------------------------- the tables

  datatype Table =
    | CcPairs | SearchDocs | Feedback | Tags | UserFiles
    | KgEntities | KgEntityStaging | KgRelationships | KgRelationshipStaging | ChunkStats

  const TABLE_COUNT := 10

  /** The order in which the migration visits them. */
  function Order(t: Table): (k: nat)
    ensures k < TABLE_COUNT
  {
    match t
    case CcPairs => 0
    case SearchDocs => 1
    case Feedback => 2
    case Tags => 3
    case UserFiles => 4
    case KgEntities => 5
    case KgEntityStaging => 6
    case KgRelationships => 7
    case KgRelationshipStaging => 8
    case ChunkStats => 9
  }

  function TableAt(k: nat): (t: Table)
    requires k < TABLE_COUNT
    ensures Order(t) == k
  {
    if k == 0 then CcPairs else if k == 1 then SearchDocs else if k == 2 then Feedback
    else if k == 3 then Tags else if k == 4 then UserFiles else if k == 5 then KgEntities
    else if k == 6 then KgEntityStaging else if k == 7 then KgRelationships
    else if k == 8 then KgRelationshipStaging else ChunkStats
  }

  datatype Document = Document(semanticId: string, rest: string)

  /** The entities a relationship goes from and to, by their text ids. */
  datatype Ends = Ends(source: string, target: string)

  /**
   A row that may refer to a document; `key` is its text id, which only chunk_stats derives from the
   document, and `ends` are given for relationships.
   */
  datatype Row = Row(doc: Option<string>, key: string, ends: Option<Ends>, rest: string)

  type Rows = map<nat, Row>

  /** The documents, the ten tables that refer to them, and the three that refer to search_doc and user_file rows. */
  datatype Db = Db(
    documents: map<string, Document>,
    rows: map<Table, Rows>,
    agentLinks: map<nat, nat>,
    messageLinks: map<nat, nat>,
    personaLinks: map<nat, nat>)

  predicate Complete(db: Db) { forall t: Table :: t in db.rows }

  /** The columns of search_doc and user_file that name a document are plain text. */
  predicate HasForeignKey(t: Table) { !t.SearchDocs? && !t.UserFiles? }

  /** No row of the table names a missing document. */
  ghost predicate Named(db: Db, t: Table)
    requires Complete(db)
  {
    forall i | i in db.rows[t] :: db.rows[t][i].doc.Some? ==> db.rows[t][i].doc.value in db.documents
  }

  /** Where a foreign key asks for it, no row names a missing document, and no link a missing search_doc row. */
  ghost predicate Intact(db: Db) {
    && Complete(db)
    && (forall t: Table | HasForeignKey(t) :: Named(db, t))
    && (forall l | l in db.agentLinks :: db.agentLinks[l] in db.rows[SearchDocs])
    && (forall l | l in db.messageLinks :: db.messageLinks[l] in db.rows[SearchDocs])
  }

  /** A table in which no row named a missing document, be it with a foreign key or without, stays so. */
  ghost predicate KeepsNamed(db: Db, after: Db)
    requires Complete(db) && Complete(after)
  {
    forall t: Table | Named(db, t) :: Named(after, t)
  }

  // ---------------------------------------------------------------- statements

  function CopyDocument(db: Db, from: string, to: string): Db {
    if from in db.documents then db.(documents := db.documents[to := db.documents[from]]) else db
  }

  function DropDocument(db: Db, id: string): Db {
    db.(documents := db.documents - {id})
  }

  function RepointedRow(row: Row, from: string, to: string): Row {
    if row.doc == Some(from) then row.(doc := Some(to)) else row
  }

  function Repointed(rows: Rows, from: string, to: string): Rows {
    map i | i in rows :: RepointedRow(rows[i], from, to)
  }

  function Rekeyed(rows: Rows, from: string, to: string): Rows {
    map i | i in rows ::
      if Like(rows[i].key, ChunkPattern(from)) then rows[i].(key := Replace(rows[i].key, from, to)) else rows[i]
  }

  function RepointTable(db: Db, t: Table, from: string, to: string): Db
    requires Complete(db)
  {
    db.(rows := db.rows[t := Repointed(db.rows[t], from, to)])
  }

  function RekeyChunks(db: Db, from: string, to: string): Db
    requires Complete(db)
  {
    db.(rows := db.rows[ChunkStats := Rekeyed(db.rows[ChunkStats], from, to)])
  }

  function Without(rows: Rows, id: string): Rows {
    map i | i in rows && rows[i].doc != Some(id) :: rows[i]
  }

  function DeleteFrom(db: Db, t: Table, id: string): Db
    requires Complete(db)
  {
    db.(rows := db.rows[t := Without(db.rows[t], id)])
  }

  function DeleteChunksLike(db: Db, id: string): Db
    requires Complete(db)
  {
    var chunks := db.rows[ChunkStats];
    db.(rows := db.rows[ChunkStats := map i | i in chunks && !Like(chunks[i].key, ChunkPattern(id)) :: chunks[i]])
  }

  function Unlinked(links: map<nat, nat>, searchDocs: Rows, id: string): map<nat, nat> {
    map l | l in links && !(links[l] in searchDocs && searchDocs[links[l]].doc == Some(id)) :: links[l]
  }

  function DeleteLinks(db: Db, id: string): Db
    requires Complete(db)
  {
    db.(agentLinks := Unlinked(db.agentLinks, db.rows[SearchDocs], id),
        messageLinks := Unlinked(db.messageLinks, db.rows[SearchDocs], id))
  }

  // ---------------------------------------------------------------- rename

  /** The database after the copy and the first `k` table updates of a rename. */
  function Swapped(db: Db, from: string, to: string, k: nat): (r: Db)
    requires Complete(db) && k <= TABLE_COUNT
    ensures Complete(r)
  {
    if k == 0 then CopyDocument(db, from, to)
    else RepointTable(Swapped(db, from, to, k - 1), TableAt(k - 1), from, to)
  }

  function Renamed(db: Db, from: string, to: string): Db
    requires Complete(db)
  {
    DropDocument(RekeyChunks(Swapped(db, from, to, TABLE_COUNT), from, to), from)
  }

  /** What the first `k` updates have done: those tables are repointed, the others untouched. */
  lemma {:induction false} SwappedIs(db: Db, from: string, to: string, k: nat)
    requires Complete(db) && k <= TABLE_COUNT
    ensures Swapped(db, from, to, k).documents == CopyDocument(db, from, to).documents
    ensures Swapped(db, from, to, k).agentLinks == db.agentLinks
    ensures Swapped(db, from, to, k).messageLinks == db.messageLinks
    ensures Swapped(db, from, to, k).personaLinks == db.personaLinks
    ensures forall t: Table :: Swapped(db, from, to, k).rows[t]
              == RowsAfter(db.rows[t], from, to, Order(t), k)
  {
    SwappedRest(db, from, to, k);
    forall t: Table
      ensures Swapped(db, from, to, k).rows[t] == RowsAfter(db.rows[t], from, to, Order(t), k)
    {
      SwappedTable(db, from, to, k, t);
    }
  }

  lemma {:induction false} SwappedRest(db: Db, from: string, to: string, k: nat)
    requires Complete(db) && k <= TABLE_COUNT
    ensures Swapped(db, from, to, k).documents == CopyDocument(db, from, to).documents
    ensures Swapped(db, from, to, k).agentLinks == db.agentLinks
    ensures Swapped(db, from, to, k).messageLinks == db.messageLinks
    ensures Swapped(db, from, to, k).personaLinks == db.personaLinks
  {
    if k > 0 {
      SwappedRest(db, from, to, k - 1);
    }
  }

  /** What `k` updates have done to the rows of a table that is updated as number `order`. */
  function RowsAfter(rows: Rows, from: string, to: string, order: nat, k: nat): Rows {
    if order < k then Repointed(rows, from, to) else rows
  }

  lemma {:induction false} SwappedTable(db: Db, from: string, to: string, k: nat, t: Table)
    requires Complete(db) && k <= TABLE_COUNT
    ensures Swapped(db, from, to, k).rows[t] == RowsAfter(db.rows[t], from, to, Order(t), k)
  {
    if k > 0 {
      SwappedTable(db, from, to, k - 1, t);
      SwappedStep(db, from, to, k - 1, t, Swapped(db, from, to, k - 1), db.rows[t], TableAt(k - 1));
    }
  }

  lemma {:induction false} SwappedStep(db: Db, from: string, to: string, k: nat, t: Table, before: Db, rows: Rows,
                                       u: Table)
    requires Complete(before) && Order(u) == k && before.rows[t] == RowsAfter(rows, from, to, Order(t), k)
    ensures RepointTable(before, u, from, to).rows[t] == RowsAfter(rows, from, to, Order(t), k + 1)
  {
    OrderIsInjective(t, u);
  }

  lemma {:induction false} OrderIsInjective(t: Table, u: Table)
    ensures Order(t) == Order(u) ==> t == u
  {}

  /** No statement of a rename ever leaves a row pointing at a missing document. */
  lemma {:induction false} SwapStaysIntact(db: Db, from: string, to: string, k: nat)
    requires Intact(db) && from != to && k <= TABLE_COUNT
    ensures Intact(Swapped(db, from, to, k)) && KeepsNamed(db, Swapped(db, from, to, k))
  {
    SwappedIs(db, from, to, k);
    var after := Swapped(db, from, to, k);
    forall t: Table | Named(db, t)
      ensures Named(after, t)
    {
      assert forall i | i in after.rows[t] :: i in db.rows[t];
    }
  }

  lemma {:induction false} RekeyStaysIntact(db: Db, from: string, to: string)
    requires Intact(db)
    ensures Intact(RekeyChunks(db, from, to)) && KeepsNamed(db, RekeyChunks(db, from, to))
  {
    var after := RekeyChunks(db, from, to);
    forall t: Table | Named(db, t)
      ensures Named(after, t)
    {
      assert forall i | i in after.rows[t] :: i in db.rows[t];
    }
  }

  ghost predicate Unused(db: Db, id: string)
    requires Complete(db)
  {
    forall t: Table, i | i in db.rows[t] :: db.rows[t][i].doc != Some(id)
  }

  lemma {:induction false} DropStaysIntact(db: Db, id: string)
    requires Intact(db) && Unused(db, id)
    ensures Intact(DropDocument(db, id)) && KeepsNamed(db, DropDocument(db, id))
  {
    var after := DropDocument(db, id);
    forall t: Table | Named(db, t)
      ensures Named(after, t)
    {
      assert forall i | i in db.rows[t] :: db.rows[t][i].doc != Some(id);
    }
  }

  lemma {:induction false} RenameStaysIntact(db: Db, from: string, to: string)
    requires Intact(db) && from != to
    ensures Intact(RekeyChunks(Swapped(db, from, to, TABLE_COUNT), from, to))
    ensures Intact(Renamed(db, from, to)) && KeepsNamed(db, Renamed(db, from, to))
  {
    var swapped := Swapped(db, from, to, TABLE_COUNT);
    SwapStaysIntact(db, from, to, TABLE_COUNT);
    RekeyStaysIntact(swapped, from, to);
    SwappedIs(db, from, to, TABLE_COUNT);
    var rekeyed := RekeyChunks(swapped, from, to);
    forall t: Table, i | i in rekeyed.rows[t]
      ensures rekeyed.rows[t][i].doc != Some(from)
    {
      assert i in swapped.rows[t];
    }
    DropStaysIntact(rekeyed, from);
  }

  lemma {:induction false} RenamedRows(db: Db, from: string, to: string, t: Table)
    requires Complete(db)
    ensures Renamed(db, from, to).rows[t]
         == if t.ChunkStats? then Rekeyed(Repointed(db.rows[t], from, to), from, to)
             else Repointed(db.rows[t], from, to)
  {
    SwappedTable(db, from, to, TABLE_COUNT, t);
  }

  /** A rename keeps every row of every table: it changes only which document a row of the old one names. */
  lemma {:induction false} RenameConservesRows(db: Db, from: string, to: string, t: Table, i: nat)
    requires Complete(db)
    ensures i in Renamed(db, from, to).rows[t] <==> i in db.rows[t]
    ensures i in db.rows[t] ==>
              var row := Renamed(db, from, to).rows[t][i];
              && row.doc == (if db.rows[t][i].doc == Some(from) then Some(to) else db.rows[t][i].doc)
              && row.ends == db.rows[t][i].ends && row.rest == db.rows[t][i].rest
              && (row.key == if t.ChunkStats? && Like(db.rows[t][i].key, ChunkPattern(from))
                             then Replace(db.rows[t][i].key, from, to) else db.rows[t][i].key)
  {
    RenamedRows(db, from, to, t);
  }

  lemma {:induction false} RenameConservesDocuments(db: Db, from: string, to: string)
    requires Complete(db) && from != to
    ensures Renamed(db, from, to).agentLinks == db.agentLinks && Renamed(db, from, to).messageLinks == db.messageLinks
    ensures Renamed(db, from, to).personaLinks == db.personaLinks
    ensures from in db.documents ==> Renamed(db, from, to).documents == db.documents[to := db.documents[from]] - {from}
    ensures from !in db.documents ==> Renamed(db, from, to).documents == db.documents
  {
    SwappedIs(db, from, to, TABLE_COUNT);
  }

  // ---------------------------------------------------------------- delete

  /** The deletions of `delete_document_from_db`, table by table, after the links are gone. */
  function DeleteTable(k: nat): Table
    requires k < TABLE_COUNT
  {
    if k == 0 then SearchDocs else if k == 1 then CcPairs else TableAt(k)
  }

  function Cleared(db: Db, id: string, k: nat): (r: Db)
    requires Complete(db) && k <= TABLE_COUNT
    ensures Complete(r)
  {
    if k == 0 then DeleteLinks(db, id) else DeleteFrom(Cleared(db, id, k - 1), DeleteTable(k - 1), id)
  }

  function Deleted(db: Db, id: string): Db
    requires Complete(db)
  {
    DropDocument(DeleteChunksLike(Cleared(db, id, TABLE_COUNT), id), id)
  }

  function DeleteOrder(t: Table): nat {
    if t.SearchDocs? then 0 else if t.CcPairs? then 1 else Order(t)
  }

  lemma {:induction false} ClearedIs(db: Db, id: string, k: nat)
    requires Complete(db) && k <= TABLE_COUNT
    ensures Cleared(db, id, k).documents == db.documents
    ensures Cleared(db, id, k).agentLinks == Unlinked(db.agentLinks, db.rows[SearchDocs], id)
    ensures Cleared(db, id, k).messageLinks == Unlinked(db.messageLinks, db.rows[SearchDocs], id)
    ensures Cleared(db, id, k).personaLinks == db.personaLinks
    ensures forall t: Table :: Cleared(db, id, k).rows[t]
              == RowsLeft(db.rows[t], id, DeleteOrder(t), k)
  {
    ClearedLinks(db, id, k);
    forall t: Table
      ensures Cleared(db, id, k).rows[t] == RowsLeft(db.rows[t], id, DeleteOrder(t), k)
    {
      ClearedTable(db, id, k, t);
    }
  }

  lemma {:induction false} ClearedLinks(db: Db, id: string, k: nat)
    requires Complete(db) && k <= TABLE_COUNT
    ensures Cleared(db, id, k).documents == db.documents
    ensures Cleared(db, id, k).agentLinks == Unlinked(db.agentLinks, db.rows[SearchDocs], id)
    ensures Cleared(db, id, k).messageLinks == Unlinked(db.messageLinks, db.rows[SearchDocs], id)
    ensures Cleared(db, id, k).personaLinks == db.personaLinks
  {
    if k > 0 {
      ClearedLinks(db, id, k - 1);
    }
  }

  function RowsLeft(rows: Rows, id: string, order: nat, k: nat): Rows {
    if order < k then Without(rows, id) else rows
  }

  lemma {:induction false} ClearedTable(db: Db, id: string, k: nat, t: Table)
    requires Complete(db) && k <= TABLE_COUNT
    ensures Cleared(db, id, k).rows[t] == RowsLeft(db.rows[t], id, DeleteOrder(t), k)
  {
    if k > 0 {
      ClearedTable(db, id, k - 1, t);
      ClearedStep(db, id, k - 1, t, Cleared(db, id, k - 1), db.rows[t], DeleteTable(k - 1));
    }
  }

  lemma {:induction false} ClearedStep(db: Db, id: string, k: nat, t: Table, before: Db, rows: Rows, u: Table)
    requires Complete(before) && k < TABLE_COUNT && u == DeleteTable(k)
    requires before.rows[t] == RowsLeft(rows, id, DeleteOrder(t), k)
    ensures DeleteFrom(before, u, id).rows[t] == RowsLeft(rows, id, DeleteOrder(t), k + 1)
  {
    DeleteOrderIs(t, k);
  }

  lemma {:induction false} DeleteOrderIs(t: Table, k: nat)
    requires k < TABLE_COUNT
    ensures DeleteOrder(t) == k <==> t == DeleteTable(k)
  {
    OrderIsInjective(t, DeleteTable(k));
  }

  /** Nor does any statement of a deletion. */
  lemma {:induction false} ClearStaysIntact(db: Db, id: string, k: nat)
    requires Intact(db) && k <= TABLE_COUNT
    ensures Intact(Cleared(db, id, k)) && KeepsNamed(db, Cleared(db, id, k))
  {
    ClearedIs(db, id, k);
    var after := Cleared(db, id, k);
    forall t: Table | Named(db, t)
      ensures Named(after, t)
    {
      assert forall i | i in after.rows[t] :: i in db.rows[t] && after.rows[t][i] == db.rows[t][i];
    }
    forall l | l in after.agentLinks ensures after.agentLinks[l] in after.rows[SearchDocs] {
      assert after.agentLinks[l] in db.rows[SearchDocs];
    }
    forall l | l in after.messageLinks ensures after.messageLinks[l] in after.rows[SearchDocs] {
      assert after.messageLinks[l] in db.rows[SearchDocs];
    }
  }

  lemma {:induction false} DeleteStaysIntact(db: Db, id: string)
    requires Intact(db)
    ensures Intact(DeleteChunksLike(Cleared(db, id, TABLE_COUNT), id))
    ensures Intact(Deleted(db, id)) && KeepsNamed(db, Deleted(db, id))
  {
    var cleared := Cleared(db, id, TABLE_COUNT);
    ClearStaysIntact(db, id, TABLE_COUNT);
    ClearedIs(db, id, TABLE_COUNT);
    ChunksStayIntact(cleared, id);
    var after := DeleteChunksLike(cleared, id);
    forall t: Table, i | i in after.rows[t]
      ensures after.rows[t][i].doc != Some(id)
    {
      assert i in cleared.rows[t] && after.rows[t][i] == cleared.rows[t][i];
    }
    DropStaysIntact(after, id);
  }

  lemma {:induction false} ChunksStayIntact(db: Db, id: string)
    requires Intact(db)
    ensures Intact(DeleteChunksLike(db, id)) && KeepsNamed(db, DeleteChunksLike(db, id))
  {
    var after := DeleteChunksLike(db, id);
    forall t: Table | Named(db, t)
      ensures Named(after, t)
    {
      assert forall i | i in after.rows[t] :: i in db.rows[t] && after.rows[t][i] == db.rows[t][i];
    }
  }

  /**
   What a deletion removes: the rows of that document, and in chunk_stats also every row whose key
   happens to match the pattern, whichever document it belongs to.
   */
  lemma {:induction false} DeleteRemoves(db: Db, id: string, t: Table, i: nat)
    requires Complete(db) && i in db.rows[t]
    ensures i in Deleted(db, id).rows[t] <==>
              db.rows[t][i].doc != Some(id) && !(t.ChunkStats? && Like(db.rows[t][i].key, ChunkPattern(id)))
    ensures i in Deleted(db, id).rows[t] ==> Deleted(db, id).rows[t][i] == db.rows[t][i]
    ensures Deleted(db, id).documents == db.documents - {id}
  {
    ClearedIs(db, id, TABLE_COUNT);
  }

  /** A link goes exactly when its search_doc row is one of the document's; its target never changes. */
  ghost predicate LinksKept(links: map<nat, nat>, searchDocs: Rows, after: map<nat, nat>, id: string)
    requires forall l | l in links :: links[l] in searchDocs
  {
    && (forall l :: l in after <==> l in links && searchDocs[links[l]].doc != Some(id))
    && (forall l | l in after && l in links :: after[l] == links[l])
  }

  /** Which links a deletion removes. */
  lemma {:induction false} DeletedLinks(db: Db, id: string)
    requires Intact(db)
    ensures LinksKept(db.agentLinks, db.rows[SearchDocs], Deleted(db, id).agentLinks, id)
    ensures LinksKept(db.messageLinks, db.rows[SearchDocs], Deleted(db, id).messageLinks, id)
    ensures Deleted(db, id).personaLinks == db.personaLinks
  {
    ClearedLinks(db, id, TABLE_COUNT);
  }

  /** A row of another document is lost if and only if it is a chunk row whose key the pattern takes. */
  lemma {:induction false} DeleteReachesOtherDocuments(db: Db, id: string, t: Table, i: nat)
    requires Complete(db) && i in db.rows[t] && db.rows[t][i].doc != Some(id)
    ensures i !in Deleted(db, id).rows[t] <==> t.ChunkStats? && exists n: nat :: TakesAt(id, db.rows[t][i].key, n)
  {
    DeleteRemoves(db, id, t, i);
    ChunkPatternTakes(db.rows[t][i].key, id);
  }

  /** So deleting a document takes every chunk row of every document whose id extends its id. */
  lemma {:induction false} ExtensionsLoseTheirChunks(id: string, suffix: string, chunk: string)
    requires '\\' !in id
    ensures Like(id + suffix + "__" + chunk, ChunkPattern(id))
  {
    var key := id + suffix + "__" + chunk;
    LikeItself(id);
    assert key[..|id|] == id;
    assert TakesAt(id, key, |id|);
    ChunkPatternTakes(key, id);
  }

  /** And, when its id holds an underscore, chunk rows of a document whose id only looks alike. */
  lemma {:induction false} StrangersLoseTheirChunks(before: string, after: string, c: char, chunk: string)
    requires IsPlain(before) && IsPlain(after)
    ensures Like(before + [c] + after + "__" + chunk, ChunkPattern(before + "_" + after))
    ensures c != '_' ==> !(before + "_" + after <= before + [c] + after + "__" + chunk)
  {
    var id, key := before + "_" + after, before + [c] + after + "__" + chunk;
    ChunkPatternMatches(key, id);
    assert id[|before|] == '_' && key[|before|] == c;
  }

  // ---------------------------------------------------------------- the loop over the documents

  function UpdatedId(db: Db, from: string, to: string): Db
    requires Complete(db)
  {
    if to in db.documents then Deleted(db, from) else Renamed(db, from, to)
  }

  type Normalizer = string -> string

  datatype Progress = Progress(db: Db, seen: set<string>)

  function Visit(p: Progress, id: string, norm: Normalizer): Progress
    requires Complete(p.db)
  {
    var canonical := norm(id);
    if canonical in p.seen then p.(db := Deleted(p.db, id))
    else Progress(if id == canonical then p.db else UpdatedId(p.db, id, canonical), p.seen + {canonical})
  }

  /** The loop of `upgrade` over the listed ids. */
  function Visited(db: Db, list: seq<string>, norm: Normalizer): (p: Progress)
    requires Complete(db)
    ensures Complete(p.db)
  {
    if list == [] then Progress(db, {})
    else Visit(Visited(db, list[..|list| - 1], norm), list[|list| - 1], norm)
  }

  lemma {:induction false} LoopStaysIntact(db: Db, list: seq<string>, norm: Normalizer)
    requires Intact(db)
    ensures Intact(Visited(db, list, norm).db) && KeepsNamed(db, Visited(db, list, norm).db)
  {
    if list != [] {
      var id := list[|list| - 1];
      LoopStaysIntact(db, list[..|list| - 1], norm);
      var before := Visited(db, list[..|list| - 1], norm).db;
      DeleteStaysIntact(before, id);
      if id != norm(id) { RenameStaysIntact(before, id, norm(id)); }
    }
  }

  predicate HasVariant(list: seq<string>, norm: Normalizer, c: string) {
    exists i :: 0 <= i < |list| && norm(list[i]) == c
  }

  /** The id is listed after an id that has it as normal form, be it an earlier listing of its own. */
  predicate ListedLate(list: seq<string>, norm: Normalizer, c: string) {
    exists i, j :: 0 <= i < j < |list| && norm(list[i]) == c && list[j] == c
  }

  /** Which documents exist after the loop. */
  ghost predicate Expected(db: Db, list: seq<string>, norm: Normalizer, d: string) {
    if HasVariant(list, norm, d) then !ListedLate(list, norm, d)
    else d in db.documents && d !in list
  }

  lemma {:induction false} VariantSnoc(list: seq<string>, norm: Normalizer, id: string, c: string)
    ensures HasVariant(list + [id], norm, c) <==> HasVariant(list, norm, c) || norm(id) == c
  {
    var longer := list + [id];
    if i :| 0 <= i < |list| && norm(list[i]) == c { assert norm(longer[i]) == c; }
    if norm(id) == c { assert norm(longer[|list|]) == c; }
  }

  lemma {:induction false} LateSnoc(list: seq<string>, norm: Normalizer, id: string, c: string)
    ensures ListedLate(list + [id], norm, c) <==> ListedLate(list, norm, c) || (id == c && HasVariant(list, norm, c))
  {
    var longer := list + [id];
    if i, j :| 0 <= i < j < |list| && norm(list[i]) == c && list[j] == c {
      assert norm(longer[i]) == c && longer[j] == c;
    }
    if i :| 0 <= i < |list| && norm(list[i]) == c && id == c {
      assert norm(longer[i]) == c && longer[|list|] == c;
    }
    if i, j :| 0 <= i < j < |longer| && norm(longer[i]) == c && longer[j] == c {
      assert norm(list[i]) == c;
      assert j < |list| ==> list[j] == c;
    }
  }

  lemma {:induction false} MemberIsVariant(list: seq<string>, norm: Normalizer, d: string)
    requires d in list
    ensures HasVariant(list, norm, norm(d))
  {}

  lemma {:induction false} UpdatedIdDocuments(db: Db, from: string, to: string, d: string)
    requires Complete(db) && from != to
    ensures d in UpdatedId(db, from, to).documents <==>
              d != from && (d in db.documents || (d == to && from in db.documents))
  {
    if to in db.documents {
      ClearedIs(db, from, TABLE_COUNT);
    } else {
      RenameConservesDocuments(db, from, to);
    }
  }

  lemma {:induction false} DeletedDocuments(db: Db, id: string)
    requires Complete(db)
    ensures Deleted(db, id).documents == db.documents - {id}
  {
    ClearedIs(db, id, TABLE_COUNT);
  }

  ghost predicate Listed(db: Db, list: seq<string>) {
    forall i | 0 <= i < |list| :: list[i] in db.documents
  }

  lemma {:induction false} SeenIsVariants(db: Db, list: seq<string>, norm: Normalizer, c: string)
    requires Complete(db)
    ensures c in Visited(db, list, norm).seen <==> HasVariant(list, norm, c)
  {
    if list != [] {
      var before := list[..|list| - 1];
      SeenIsVariants(db, before, norm, c);
      VariantSnoc(before, norm, list[|list| - 1], c);
      assert list == before + [list[|list| - 1]];
    }
  }

  /** One visit turns the expected documents of the list so far into those of the longer list. */
  lemma {:induction false} VisitOutcome(db: Db, before: seq<string>, p: Progress, id: string, norm: Normalizer,
                                        d: string)
    requires Complete(p.db) && id in db.documents
    requires norm(id) in p.seen <==> HasVariant(before, norm, norm(id))
    requires forall x | x in {d, id} :: x in p.db.documents <==> Expected(db, before, norm, x)
    ensures d in Visit(p, id, norm).db.documents <==> Expected(db, before + [id], norm, d)
  {
    var c := norm(id);
    VariantSnoc(before, norm, id, d);
    LateSnoc(before, norm, id, d);
    DeletedDocuments(p.db, id);
    if id in before { MemberIsVariant(before, norm, id); }
    if c !in p.seen && id != c { UpdatedIdDocuments(p.db, id, c, d); }
  }

  /**
   Which documents exist after the loop, for every list and every way to normalise: the normal forms
   of listed ids that are not listed late, and the documents that were never listed.
   */
  lemma {:induction false} LoopOutcome(db: Db, list: seq<string>, norm: Normalizer, d: string)
    requires Complete(db) && Listed(db, list)
    ensures d in Visited(db, list, norm).db.documents <==> Expected(db, list, norm, d)
  {
    if list != [] {
      var last := |list| - 1;
      var before, id := list[..last], list[last];
      assert list == before + [id];
      LoopOutcome(db, before, norm, d);
      LoopOutcome(db, before, norm, id);
      SeenIsVariants(db, before, norm, norm(id));
      VisitOutcome(db, before, Visited(db, before, norm), id, norm, d);
    }
  }

  /** Drive documents: those the loop was given and those it made. */
  predicate IsDrive(list: seq<string>, norm: Normalizer, d: string) {
    d in list || HasVariant(list, norm, d)
  }

  /** Two normal forms of listed ids differ, normalise alike, and neither is listed late. */
  predicate Clash(list: seq<string>, norm: Normalizer) {
    exists i, j :: 0 <= i < |list| && 0 <= j < |list| && ClashAt(list, norm, norm(list[i]), norm(list[j]))
  }

  predicate ClashAt(list: seq<string>, norm: Normalizer, c: string, d: string) {
    c != d && norm(c) == norm(d) && !ListedLate(list, norm, c) && !ListedLate(list, norm, d)
  }

  ghost predicate NoTwoAlike(documents: map<string, Document>, list: seq<string>, norm: Normalizer) {
    forall c, d | c in documents && d in documents && IsDrive(list, norm, c) && IsDrive(list, norm, d)
        && norm(c) == norm(d) ::
      c == d
  }

  /** Exactly when no two Drive documents are left with the same canonical id, told from the list alone. */
  lemma {:induction false} UniqueIff(db: Db, list: seq<string>, norm: Normalizer)
    requires Complete(db) && Listed(db, list)
    ensures NoTwoAlike(Visited(db, list, norm).db.documents, list, norm) <==> !Clash(list, norm)
  {
    var after := Visited(db, list, norm).db.documents;
    forall d
      ensures d in after <==> Expected(db, list, norm, d)
    {
      LoopOutcome(db, list, norm, d);
    }
    if Clash(list, norm) {
      var i, j :| 0 <= i < |list| && 0 <= j < |list| && ClashAt(list, norm, norm(list[i]), norm(list[j]));
      assert HasVariant(list, norm, norm(list[i])) && HasVariant(list, norm, norm(list[j]));
    } else {
      forall c, d | c in after && d in after && IsDrive(list, norm, c) && IsDrive(list, norm, d) && norm(c) == norm(d)
        ensures c == d
      {
        NoClash(list, norm, c, d);
      }
    }
  }

  lemma {:induction false} NoClash(list: seq<string>, norm: Normalizer, c: string, d: string)
    requires HasVariant(list, norm, c) && HasVariant(list, norm, d) && !Clash(list, norm)
    ensures !ClashAt(list, norm, c, d)
  {
    var i :| 0 <= i < |list| && norm(list[i]) == c;
    var j :| 0 <= j < |list| && norm(list[j]) == d;
    assert !ClashAt(list, norm, norm(list[i]), norm(list[j]));
  }

  /** Normal forms that are stable never clash. */
  lemma {:induction false} StableNeverClashes(list: seq<string>, norm: Normalizer)
    requires forall i | 0 <= i < |list| :: norm(norm(list[i])) == norm(list[i])
    ensures !Clash(list, norm)
  {}

  /**
   The canonical document of a listed id exists afterwards if and only if it was not listed late;
   documents that are neither listed nor canonical stay as they were.
   */
  lemma {:induction false} CanonicalSurvivesIff(db: Db, list: seq<string>, norm: Normalizer)
    requires Complete(db) && Listed(db, list)
    ensures var after := Visited(db, list, norm).db.documents;
            && (forall id | id in list :: norm(id) in after <==> !ListedLate(list, norm, norm(id)))
            && (forall d | !IsDrive(list, norm, d) :: d in after <==> d in db.documents)
            && (forall d | d in list && !HasVariant(list, norm, d) :: d !in after)
  {
    var after := Visited(db, list, norm).db.documents;
    forall d
      ensures d in after <==> Expected(db, list, norm, d)
    {
      LoopOutcome(db, list, norm, d);
    }
    forall id | id in list
      ensures HasVariant(list, norm, norm(id))
    {
      MemberIsVariant(list, norm, id);
    }
  }

  /** The id stands at position `i` alone, and ahead of all its variants. */
  predicate OnceAndFirst(list: seq<string>, norm: Normalizer, c: string, i: nat)
    requires i < |list|
  {
    list[i] == c && forall j | 0 <= j < |list| && j != i :: (j < i ==> norm(list[j]) != c) && list[j] != c
  }

  /** A canonical id is listed late unless it is not listed, or listed once and ahead of all its variants. */
  lemma {:induction false} LateIff(list: seq<string>, norm: Normalizer, c: string)
    requires norm(c) == c
    ensures !ListedLate(list, norm, c) <==>
              c !in list || exists i :: 0 <= i < |list| && OnceAndFirst(list, norm, c, i)
  {
    if c in list && !ListedLate(list, norm, c) {
      var i :| 0 <= i < |list| && list[i] == c;
      assert norm(list[i]) == c;
      assert OnceAndFirst(list, norm, c, i);
    }
    if ListedLate(list, norm, c) {
      var i, j :| 0 <= i < j < |list| && norm(list[i]) == c && list[j] == c;
      forall k | 0 <= k < |list| ensures !OnceAndFirst(list, norm, c, k) {
        assert k == j ==> norm(list[i]) == c;
      }
    }
  }

  /** Listed after a variant, the canonical document is taken for a duplicate: both are gone. */
  lemma {:induction false} ListedLateIsLost(db: Db, variant: string, canonical: string, norm: Normalizer)
    requires Complete(db) && Listed(db, [variant, canonical])
    requires variant != canonical && norm(variant) == norm(canonical) == canonical
    ensures canonical !in Visited(db, [variant, canonical], norm).db.documents
    ensures variant !in Visited(db, [variant, canonical], norm).db.documents
  {
    var list := [variant, canonical];
    assert norm(list[0]) == canonical && list[1] == canonical;
    LoopOutcome(db, list, norm, canonical);
    LoopOutcome(db, list, norm, variant);
  }

  /** When a normalised id is not stable, two documents with the same canonical id can remain. */
  lemma {:induction false} UnstableLeavesTwo(db: Db, deep: string, norm: Normalizer)
    requires var canonical := norm(norm(deep));
             && canonical != norm(deep) && norm(canonical) == canonical && deep != norm(deep)
             && Complete(db) && Listed(db, [deep, canonical])
    ensures !NoTwoAlike(Visited(db, [deep, norm(norm(deep))], norm).db.documents, [deep, norm(norm(deep))], norm)
  {
    var list := [deep, norm(norm(deep))];
    UniqueIff(db, list, norm);
    assert list[0] == deep && list[1] == norm(norm(deep));
    assert ClashAt(list, norm, norm(list[0]), norm(list[1]));
  }

  // ---------------------------------------------------------------- the loop with the real normal form

  function Canonical(known: Schemes): Normalizer { (url: string) => NormalId(url, known) }

  /** When no listed id would lose more in a second pass, no two documents are left with one canonical id. */
  lemma {:induction false} UrlsAreUnique(db: Db, list: seq<string>, known: Schemes)
    requires Complete(db) && Listed(db, list)
    requires forall i | 0 <= i < |list| :: !LosesMoreId(list[i], known)
    ensures NoTwoAlike(Visited(db, list, Canonical(known)).db.documents, list, Canonical(known))
  {
    forall i | 0 <= i < |list|
      ensures Canonical(known)(Canonical(known)(list[i])) == Canonical(known)(list[i])
    {
      NormalizingTwice(list[i], known);
    }
    StableNeverClashes(list, Canonical(known));
    UniqueIff(db, list, Canonical(known));
  }

  /** A url with a view segment hidden below another leaves two documents with one canonical id. */
  lemma {:induction false} HiddenViewLeavesTwo(db: Db, name: string, view: string, params: string, known: Schemes)
    requires IsHidden(name, view, params) && !IsViewSuffix(name) && "https" in known.params && Complete(db)
    requires Listed(db, [Web(Hidden(name, view, params), known), Web(["", name + ";" + params], known)])
    ensures var list := [Web(Hidden(name, view, params), known), Web(["", name + ";" + params], known)];
            !NoTwoAlike(Visited(db, list, Canonical(known)).db.documents, list, Canonical(known))
  {
    HiddenIsWeb(name, view, params);
    HiddenView(name, view, params, known);
    HiddenEnds(name, view, params, known);
    WebDiffers(Hidden(name, view, params), ["", name, view + ";" + params], known);
    WebDiffers(["", name, view + ";" + params], ["", name + ";" + params], known);
    UnstableLeavesTwo(db, Web(Hidden(name, view, params), known), Canonical(known));
  }
}
