/**
 What the loop of the Drive migration does to every row: which documents it loses with their rows, and
 when the foreign keys let it through.
 */
module DriveLosses {
  import opened DriveIds
  import opened DriveReferences
  import opened Outcomes

  // ---------------------------------------------------------------- where a document ends up

  /** What a visit makes of the visited document: gone, or stored under this id. */
  function Fate(seen: bool, taken: bool, id: string, canonical: string): Option<string> {
    if seen then None
    else if id == canonical then Some(id)
    else if taken then None
    else Some(canonical)
  }

  /** The id under which the rows of document `d` are after the loop, told from the list; None when they are gone. */
  ghost function Home(db: Db, list: seq<string>, norm: Normalizer, d: string): Option<string> {
    if list == [] then Some(d)
    else
      var before, id := list[..|list| - 1], list[|list| - 1];
      var home := Home(db, before, norm, d);
      if home != Some(id) then home
      else Fate(HasVariant(before, norm, norm(id)), Expected(db, before, norm, norm(id)), id, norm(id))
  }

  ghost function RowHome(db: Db, list: seq<string>, norm: Normalizer, row: Row): Option<string> {
    if row.doc.None? then None else Home(db, list, norm, row.doc.value)
  }

  /** The row is deleted with its document. */
  ghost predicate Gone(db: Db, list: seq<string>, norm: Normalizer, row: Row) {
    row.doc.Some? && Home(db, list, norm, row.doc.value).None?
  }

  /** Row `i` of one table before and after. */
  ghost predicate RowBecomes(rows: Rows, after: Rows, i: nat, gone: bool, doc: Option<string>) {
    && (i in after <==> i in rows && !gone)
    && (i in after && i in rows ==> after[i] == rows[i].(doc := doc))
  }

  lemma {:induction false} DeletedRow(db: Db, id: string, t: Table, i: nat)
    requires Complete(db) && !t.ChunkStats?
    ensures i in db.rows[t] ==>
              RowBecomes(db.rows[t], Deleted(db, id).rows[t], i, db.rows[t][i].doc == Some(id), db.rows[t][i].doc)
    ensures i !in db.rows[t] ==> i !in Deleted(db, id).rows[t]
  {
    ClearedTable(db, id, TABLE_COUNT, t);
  }

  lemma {:induction false} RenamedRow(db: Db, from: string, to: string, t: Table, i: nat)
    requires Complete(db) && !t.ChunkStats?
    ensures i in db.rows[t] ==>
              RowBecomes(db.rows[t], Renamed(db, from, to).rows[t], i, false,
                         if db.rows[t][i].doc == Some(from) then Some(to) else db.rows[t][i].doc)
    ensures i !in db.rows[t] ==> i !in Renamed(db, from, to).rows[t]
  {
    RenamedRows(db, from, to, t);
  }

  /** One visit: the rows of the visited document share its fate, all others stay. */
  lemma {:induction false} VisitedRow(p: Progress, id: string, norm: Normalizer, t: Table, i: nat)
    requires Complete(p.db) && !t.ChunkStats?
    ensures var after := Visit(p, id, norm).db.rows[t];
            var fate := Fate(norm(id) in p.seen, norm(id) in p.db.documents, id, norm(id));
            && (i in p.db.rows[t] ==>
                 var mine := p.db.rows[t][i].doc == Some(id);
                 RowBecomes(p.db.rows[t], after, i, mine && fate.None?, if mine then fate else p.db.rows[t][i].doc))
            && (i !in p.db.rows[t] ==> i !in after)
  {
    DeletedRow(p.db, id, t, i);
    RenamedRow(p.db, id, norm(id), t, i);
  }

  /** What the loop makes of a row of any table but chunk_stats. */
  lemma {:induction false} LoopRow(db: Db, list: seq<string>, norm: Normalizer, t: Table, i: nat)
    requires Complete(db) && Listed(db, list) && !t.ChunkStats?
    ensures i in db.rows[t] ==>
              RowBecomes(db.rows[t], Visited(db, list, norm).db.rows[t], i, Gone(db, list, norm, db.rows[t][i]),
                         RowHome(db, list, norm, db.rows[t][i]))
    ensures i !in db.rows[t] ==> i !in Visited(db, list, norm).db.rows[t]
  {
    if list != [] {
      var before, id := list[..|list| - 1], list[|list| - 1];
      var p := Visited(db, before, norm);
      LoopRow(db, before, norm, t, i);
      VisitedRow(p, id, norm, t, i);
      SeenIsVariants(db, before, norm, norm(id));
      LoopOutcome(db, before, norm, norm(id));
    }
  }

  lemma {:induction false} LoopPersonas(db: Db, list: seq<string>, norm: Normalizer)
    requires Complete(db)
    ensures Visited(db, list, norm).db.personaLinks == db.personaLinks
  {
    if list != [] {
      var before, id := list[..|list| - 1], list[|list| - 1];
      LoopPersonas(db, before, norm);
      ClearedLinks(Visited(db, before, norm).db, id, TABLE_COUNT);
      SwappedRest(Visited(db, before, norm).db, id, norm(id), TABLE_COUNT);
    }
  }

  /** A link is lost exactly when its search_doc row is; its target never changes. */
  ghost predicate LinksFollow(db: Db, list: seq<string>, norm: Normalizer, links: map<nat, nat>, after: map<nat, nat>)
    requires Complete(db) && forall l | l in links :: links[l] in db.rows[SearchDocs]
  {
    && (forall l :: l in after <==> l in links && !Gone(db, list, norm, db.rows[SearchDocs][links[l]]))
    && (forall l | l in after && l in links :: after[l] == links[l])
  }

  /** What the loop makes of the links to search_doc rows. */
  lemma {:induction false} LoopLinks(db: Db, list: seq<string>, norm: Normalizer)
    requires Intact(db) && Listed(db, list)
    ensures LinksFollow(db, list, norm, db.agentLinks, Visited(db, list, norm).db.agentLinks)
    ensures LinksFollow(db, list, norm, db.messageLinks, Visited(db, list, norm).db.messageLinks)
  {
    if list != [] {
      var before, id := list[..|list| - 1], list[|list| - 1];
      var p := Visited(db, before, norm);
      LoopLinks(db, before, norm);
      LoopStaysIntact(db, before, norm);
      VisitedLinks(p, id, norm);
      VisitLinks(db, before, id, norm, db.agentLinks, p.db.agentLinks, Visit(p, id, norm).db.agentLinks);
      VisitLinks(db, before, id, norm, db.messageLinks, p.db.messageLinks, Visit(p, id, norm).db.messageLinks);
      assert list == before + [id];
    }
  }

  /** One visit: links go only when the visited document is deleted. */
  lemma {:induction false} VisitedLinks(p: Progress, id: string, norm: Normalizer)
    requires Intact(p.db)
    ensures var after := Visit(p, id, norm).db;
            if Fate(norm(id) in p.seen, norm(id) in p.db.documents, id, norm(id)).None? then
              && LinksKept(p.db.agentLinks, p.db.rows[SearchDocs], after.agentLinks, id)
              && LinksKept(p.db.messageLinks, p.db.rows[SearchDocs], after.messageLinks, id)
            else after.agentLinks == p.db.agentLinks && after.messageLinks == p.db.messageLinks
  {
    DeletedLinks(p.db, id);
    SwappedRest(p.db, id, norm(id), TABLE_COUNT);
  }

  lemma {:induction false} VisitLinks(db: Db, before: seq<string>, id: string, norm: Normalizer, links: map<nat, nat>,
                                      mid: map<nat, nat>, after: map<nat, nat>)
    requires Complete(db) && Listed(db, before) && forall l | l in links :: links[l] in db.rows[SearchDocs]
    requires LinksFollow(db, before, norm, links, mid)
    requires forall l | l in mid :: mid[l] in Visited(db, before, norm).db.rows[SearchDocs]
    requires if Deletes(Visited(db, before, norm), id, norm)
             then LinksKept(mid, Visited(db, before, norm).db.rows[SearchDocs], after, id) else after == mid
    ensures LinksFollow(db, before + [id], norm, links, after)
  {
    forall l
      ensures l in after <==> l in links && !Gone(db, before + [id], norm, db.rows[SearchDocs][links[l]])
      ensures l in after ==> after[l] == links[l]
    {
      if l in links {
        LoopRow(db, before, norm, SearchDocs, links[l]);
        LostNextIff(db, before, id, norm, db.rows[SearchDocs][links[l]]);
        GoneStays(db, before, id, norm, db.rows[SearchDocs][links[l]]);
      }
    }
  }

  lemma {:induction false} GoneStays(db: Db, before: seq<string>, id: string, norm: Normalizer, row: Row)
    ensures Gone(db, before, norm, row) ==> Gone(db, before + [id], norm, row)
  {
    assert (before + [id])[..|before|] == before;
  }

  // ---------------------------------------------------------------- the references after the loop

  /** Relationship `r` goes from or to entity `e`. */
  predicate Joins(relationships: Rows, entities: Rows, r: nat, e: nat) {
    r in relationships && e in entities && NamesKey(relationships[r], entities[e].key)
  }

  /** Every relationship of a lost entity is lost itself. */
  ghost predicate EndsLostTogether(db: Db, list: seq<string>, norm: Normalizer, relationships: Rows, entities: Rows) {
    forall r, e | Joins(relationships, entities, r, e) && Gone(db, list, norm, entities[e]) ::
      Gone(db, list, norm, relationships[r])
  }

  ghost predicate FilesKept(db: Db, list: seq<string>, norm: Normalizer)
    requires References(db)
  {
    forall l | l in db.personaLinks :: !Gone(db, list, norm, db.rows[UserFiles][db.personaLinks[l]])
  }

  lemma {:induction false} LoopEnds(db: Db, list: seq<string>, norm: Normalizer, rt: Table, et: Table)
    requires Complete(db) && Listed(db, list) && !rt.ChunkStats? && !et.ChunkStats?
    requires EndsExist(db.rows[rt], db.rows[et]) && UniqueKeys(db.rows[et])
    ensures var after := Visited(db, list, norm).db;
            EndsExist(after.rows[rt], after.rows[et]) <==> EndsLostTogether(db, list, norm, db.rows[rt], db.rows[et])
  {
    var after := Visited(db, list, norm).db;
    var rels, ents, rels', ents' := db.rows[rt], db.rows[et], after.rows[rt], after.rows[et];
    if EndsExist(rels', ents') {
      forall r, e | Joins(rels, ents, r, e) && Gone(db, list, norm, ents[e])
        ensures Gone(db, list, norm, rels[r])
      {
        LoopRow(db, list, norm, rt, r);
        LoopKey(db, list, norm, et, ents[e].key, e);
        assert r in rels' ==> NamesKey(rels'[r], ents[e].key);
      }
    }
    if EndsLostTogether(db, list, norm, rels, ents) {
      forall r, key | r in rels' && NamesKey(rels'[r], key)
        ensures KeyExists(ents', key)
      {
        LoopRow(db, list, norm, rt, r);
        assert NamesKey(rels[r], key);
        assert KeyExists(ents, key);
        var e :| e in ents && ents[e].key == key;
        assert Joins(rels, ents, r, e);
        LoopKey(db, list, norm, et, key, e);
      }
    }
  }

  /** A text id is still there exactly when its row is. */
  lemma {:induction false} LoopKey(db: Db, list: seq<string>, norm: Normalizer, t: Table, key: string, e: nat)
    requires Complete(db) && Listed(db, list) && !t.ChunkStats? && UniqueKeys(db.rows[t])
    requires e in db.rows[t] && db.rows[t][e].key == key
    ensures KeyExists(Visited(db, list, norm).db.rows[t], key) <==> !Gone(db, list, norm, db.rows[t][e])
  {
    var after := Visited(db, list, norm).db.rows[t];
    LoopRow(db, list, norm, t, e);
    if KeyExists(after, key) {
      var d :| d in after && after[d].key == key;
      LoopRow(db, list, norm, t, d);
      assert d == e;
    }
    if !Gone(db, list, norm, db.rows[t][e]) { assert after[e].key == key; }
  }

  /** No lost user file is used by a persona, and no lost entity by a relationship that stays. */
  ghost predicate LosesNothingUsed(db: Db, list: seq<string>, norm: Normalizer)
    requires References(db)
  {
    && FilesKept(db, list, norm)
    && EndsLostTogether(db, list, norm, db.rows[KgRelationships], db.rows[KgEntities])
    && EndsLostTogether(db, list, norm, db.rows[KgRelationshipStaging], db.rows[KgEntityStaging])
  }

  /**
   After the whole loop all references hold if and only if it loses no user file that a persona uses, and
   no entity without its relationships.
   */
  lemma {:induction false} LoopReferencesIff(db: Db, list: seq<string>, norm: Normalizer)
    requires References(db) && KeysUnique(db) && Listed(db, list)
    ensures References(Visited(db, list, norm).db) <==> LosesNothingUsed(db, list, norm)
  {
    LoopStaysIntact(db, list, norm);
    LoopEnds(db, list, norm, KgRelationships, KgEntities);
    LoopEnds(db, list, norm, KgRelationshipStaging, KgEntityStaging);
    LoopFiles(db, list, norm);
  }

  lemma {:induction false} LoopFiles(db: Db, list: seq<string>, norm: Normalizer)
    requires References(db) && Listed(db, list)
    ensures PersonasExist(Visited(db, list, norm).db) <==> FilesKept(db, list, norm)
  {
    LoopPersonas(db, list, norm);
    forall l | l in db.personaLinks
      ensures db.personaLinks[l] in Visited(db, list, norm).db.rows[UserFiles] <==>
                !Gone(db, list, norm, db.rows[UserFiles][db.personaLinks[l]])
    {
      LoopRow(db, list, norm, UserFiles, db.personaLinks[l]);
    }
  }

  // ---------------------------------------------------------------- every statement of the loop

  predicate Deletes(p: Progress, id: string, norm: Normalizer) {
    Fate(norm(id) in p.seen, norm(id) in p.db.documents, id, norm(id)).None?
  }

  ghost predicate RenameAccepted(db: Db, from: string, to: string)
    requires Complete(db)
  {
    && (forall k: nat | k <= TABLE_COUNT :: References(Swapped(db, from, to, k)))
    && References(RekeyChunks(Swapped(db, from, to, TABLE_COUNT), from, to)) && References(Renamed(db, from, to))
  }

  /** The state after each statement of the visit has all references. */
  ghost predicate VisitAccepted(p: Progress, id: string, norm: Normalizer)
    requires Complete(p.db)
  {
    if Deletes(p, id, norm) then DeletionAccepted(p.db, id)
    else id == norm(id) || RenameAccepted(p.db, id, norm(id))
  }

  ghost predicate LoopAccepted(db: Db, list: seq<string>, norm: Normalizer)
    requires Complete(db)
  {
    forall n | 0 <= n < |list| :: VisitAccepted(Visited(db, list[..n], norm), list[n], norm)
  }

  /** The row is lost by the visit after the first ones. */
  ghost predicate LostNext(db: Db, before: seq<string>, id: string, norm: Normalizer, row: Row) {
    !Gone(db, before, norm, row) && Gone(db, before + [id], norm, row)
  }

  /** No relationship of an entity that the visit loses was still there. */
  ghost predicate EndsLostBefore(db: Db, before: seq<string>, id: string, norm: Normalizer, relationships: Rows,
                                 entities: Rows) {
    forall r, e | Joins(relationships, entities, r, e) && LostNext(db, before, id, norm, entities[e]) ::
      Gone(db, before, norm, relationships[r])
  }

  /** The visit loses no user file that a persona uses, and no entity before its relationships. */
  ghost predicate LosesInOrder(db: Db, before: seq<string>, id: string, norm: Normalizer)
    requires References(db)
  {
    && (forall l | l in db.personaLinks :: !LostNext(db, before, id, norm, db.rows[UserFiles][db.personaLinks[l]]))
    && EndsLostBefore(db, before, id, norm, db.rows[KgRelationships], db.rows[KgEntities])
    && EndsLostBefore(db, before, id, norm, db.rows[KgRelationshipStaging], db.rows[KgEntityStaging])
  }

  lemma {:induction false} LostNextIff(db: Db, before: seq<string>, id: string, norm: Normalizer, row: Row)
    requires Complete(db) && Listed(db, before)
    ensures LostNext(db, before, id, norm, row) <==>
              RowHome(db, before, norm, row) == Some(id) && Deletes(Visited(db, before, norm), id, norm)
  {
    SeenIsVariants(db, before, norm, norm(id));
    LoopOutcome(db, before, norm, norm(id));
    assert (before + [id])[..|before|] == before;
  }

  lemma {:induction false} NamesAtVisit(db: Db, before: seq<string>, id: string, norm: Normalizer, rt: Table, et: Table)
    requires Complete(db) && Listed(db, before) && !rt.ChunkStats? && !et.ChunkStats?
    requires Deletes(Visited(db, before, norm), id, norm)
    ensures var p := Visited(db, before, norm);
            SomeNames(p.db.rows[rt], p.db.rows[et], id) <==>
              !EndsLostBefore(db, before, id, norm, db.rows[rt], db.rows[et])
  {
    var p := Visited(db, before, norm);
    var rels, ents := p.db.rows[rt], p.db.rows[et];
    if r :| NamesEntityOf(rels, ents, r, id) {
      var e :| e in ents && ents[e].doc == Some(id) && NamesKey(rels[r], ents[e].key);
      LoopRow(db, before, norm, rt, r);
      LoopRow(db, before, norm, et, e);
      LostNextIff(db, before, id, norm, db.rows[et][e]);
      assert Joins(db.rows[rt], db.rows[et], r, e);
    }
    if r, e :| Joins(db.rows[rt], db.rows[et], r, e) && LostNext(db, before, id, norm, db.rows[et][e])
               && !Gone(db, before, norm, db.rows[rt][r]) {
      LoopRow(db, before, norm, rt, r);
      LoopRow(db, before, norm, et, e);
      LostNextIff(db, before, id, norm, db.rows[et][e]);
      assert NamesEntityOf(rels, ents, r, id);
    }
  }

  lemma {:induction false} FilesAtVisit(db: Db, before: seq<string>, id: string, norm: Normalizer)
    requires References(db) && Listed(db, before) && Deletes(Visited(db, before, norm), id, norm)
    requires References(Visited(db, before, norm).db)
    ensures PersonaUses(Visited(db, before, norm).db, id) <==>
              exists l :: l in db.personaLinks && LostNext(db, before, id, norm, db.rows[UserFiles][db.personaLinks[l]])
  {
    LoopPersonas(db, before, norm);
    forall l | l in db.personaLinks
      ensures Visited(db, before, norm).db.rows[UserFiles][db.personaLinks[l]].doc == Some(id)
         <==> LostNext(db, before, id, norm, db.rows[UserFiles][db.personaLinks[l]])
    {
      LoopRow(db, before, norm, UserFiles, db.personaLinks[l]);
      LostNextIff(db, before, id, norm, db.rows[UserFiles][db.personaLinks[l]]);
    }
  }

  lemma {:induction false} LoopKeysUnique(db: Db, list: seq<string>, norm: Normalizer, t: Table)
    requires Complete(db) && Listed(db, list) && !t.ChunkStats? && UniqueKeys(db.rows[t])
    ensures UniqueKeys(Visited(db, list, norm).db.rows[t])
  {
    var after := Visited(db, list, norm).db.rows[t];
    forall i | i in after ensures i in db.rows[t] && after[i].key == db.rows[t][i].key {
      LoopRow(db, list, norm, t, i);
    }
  }

  /** One visit, from a state with all references. */
  lemma {:induction false} VisitAcceptedIff(db: Db, before: seq<string>, id: string, norm: Normalizer)
    requires References(db) && KeysUnique(db) && Listed(db, before) && References(Visited(db, before, norm).db)
    ensures var p := Visited(db, before, norm);
            && (VisitAccepted(p, id, norm) <==> LosesInOrder(db, before, id, norm))
            && (VisitAccepted(p, id, norm) ==> References(Visit(p, id, norm).db))
  {
    var p := Visited(db, before, norm);
    LoopKeysUnique(db, before, norm, KgEntities);
    LoopKeysUnique(db, before, norm, KgEntityStaging);
    if Deletes(p, id, norm) {
      DeletionAcceptedIff(p.db, id);
      FilesAtVisit(db, before, id, norm);
      NamesAtVisit(db, before, id, norm, KgRelationships, KgEntities);
      NamesAtVisit(db, before, id, norm, KgRelationshipStaging, KgEntityStaging);
    } else {
      NothingLost(db, before, id, norm);
      if id != norm(id) {
        forall k: nat | k <= TABLE_COUNT ensures References(Swapped(p.db, id, norm(id), k)) {
          RenameKeepsReferences(p.db, id, norm(id), k);
        }
        RenameKeepsReferences(p.db, id, norm(id), 0);
      }
    }
  }

  lemma {:induction false} NothingLost(db: Db, before: seq<string>, id: string, norm: Normalizer)
    requires References(db) && Listed(db, before) && !Deletes(Visited(db, before, norm), id, norm)
    ensures LosesInOrder(db, before, id, norm)
  {
    forall row ensures !LostNext(db, before, id, norm, row) {
      LostNextIff(db, before, id, norm, row);
    }
  }

  lemma {:induction false} VisitedNext(db: Db, list: seq<string>, norm: Normalizer, n: nat)
    requires Complete(db) && 0 < n <= |list|
    ensures Visited(db, list[..n], norm) == Visit(Visited(db, list[..n - 1], norm), list[n - 1], norm)
  {
    assert list[..n][..n - 1] == list[..n - 1];
  }

  lemma {:induction false} AcceptedSoFar(db: Db, list: seq<string>, norm: Normalizer, n: nat)
    requires References(db) && KeysUnique(db) && Listed(db, list) && n <= |list|
    requires forall m | 0 <= m < n :: VisitAccepted(Visited(db, list[..m], norm), list[m], norm)
    ensures References(Visited(db, list[..n], norm).db)
  {
    if n > 0 {
      AcceptedSoFar(db, list, norm, n - 1);
      VisitAcceptedIff(db, list[..n - 1], list[n - 1], norm);
      VisitedNext(db, list, norm, n);
    }
  }

  lemma {:induction false} OrderedSoFar(db: Db, list: seq<string>, norm: Normalizer, n: nat)
    requires References(db) && KeysUnique(db) && Listed(db, list) && n <= |list|
    requires forall m | 0 <= m < n :: LosesInOrder(db, list[..m], list[m], norm)
    ensures References(Visited(db, list[..n], norm).db)
  {
    if n > 0 {
      OrderedSoFar(db, list, norm, n - 1);
      VisitAcceptedIff(db, list[..n - 1], list[n - 1], norm);
      VisitedNext(db, list, norm, n);
    }
  }

  /**
   The foreign keys let every statement of the whole loop through if and only if no visit loses a user file
   that a persona uses, or an entity while one of its relationships is there.
   */
  lemma {:induction false} LoopAcceptedIff(db: Db, list: seq<string>, norm: Normalizer)
    requires References(db) && KeysUnique(db) && Listed(db, list)
    ensures LoopAccepted(db, list, norm) <==> forall n | 0 <= n < |list| :: LosesInOrder(db, list[..n], list[n], norm)
  {
    if LoopAccepted(db, list, norm) {
      forall n | 0 <= n < |list| ensures LosesInOrder(db, list[..n], list[n], norm) {
        AcceptedSoFar(db, list, norm, n);
        VisitAcceptedIff(db, list[..n], list[n], norm);
      }
    }
    if forall n | 0 <= n < |list| :: LosesInOrder(db, list[..n], list[n], norm) {
      forall n | 0 <= n < |list| ensures VisitAccepted(Visited(db, list[..n], norm), list[n], norm) {
        OrderedSoFar(db, list, norm, n);
        VisitAcceptedIff(db, list[..n], list[n], norm);
      }
    }
  }
}
