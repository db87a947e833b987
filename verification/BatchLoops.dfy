/**
 The batched loops of the user-file migrations (backend/alembic/versions/0cd424f32b1d...,
 16c37a30adf2... and 3a78dba1080a...): each statement works on some rows of the database's choosing,
 no more than a limit, and the loop stops at the first statement that changes fewer than the limit.
 */
module BatchLoops {
  import opened Counting
  import opened Outcomes

  type Uuid = nat

  datatype FileRow = FileRow(folder: Option<int>, newId: Option<Uuid>)

  // ---------------------------------------------------------------- what the database may choose

  function Smaller(a: nat, b: nat): nat { if a < b then a else b }

  /** The rows a LIMIT picks: any of them, as many as there are up to the limit. */
  method Pick<T(==)>(pool: set<T>, limit: nat) returns (chosen: set<T>)
    ensures chosen <= pool && |chosen| == Smaller(limit, |pool|)
  {
    chosen := {};
    while |chosen| < Smaller(limit, |pool|)
      invariant chosen <= pool && |chosen| <= Smaller(limit, |pool|)
      decreases limit - |chosen|
    {
      SubsetSize(chosen, pool);
      var x :| x in pool - chosen;
      chosen := chosen + {x};
    }
  }

  lemma {:induction false} Member<T>(s: set<T>) returns (x: T)
    requires s != {}
    ensures x in s
  {
    x :| x in s;
  }

  // ---------------------------------------------------------------- the tables in their final form

  function NullIds(files: map<int, FileRow>): set<int> {
    set f | f in files && files[f].newId.None?
  }

  /** Every file without an id gets the generated one; nothing else changes. */
  function Filled(files: map<int, FileRow>, generated: int -> Uuid): map<int, FileRow> {
    map f | f in files :: if files[f].newId.None? then files[f].(newId := Some(generated(f))) else files[f]
  }

  /** The keys of persona__user_file, persona__user_folder and project__user_file. */
  datatype PersonaFile = PersonaFile(persona: int, file: int)

  datatype PersonaFolder = PersonaFolder(persona: int, folder: int)

  datatype ProjectFile = ProjectFile(project: int, file: Uuid)

  function NullRows(rows: map<PersonaFile, Option<Uuid>>): set<PersonaFile> {
    set k | k in rows && rows[k].None?
  }

  predicate AllNumbered(files: map<int, FileRow>) { forall f | f in files :: files[f].newId.Some? }

  /** Every row without an id gets that of its file. */
  function Resolved(rows: map<PersonaFile, Option<Uuid>>, files: map<int, FileRow>): map<PersonaFile, Option<Uuid>>
    requires forall k | k in NullRows(rows) :: k.file in files
  {
    map k | k in rows :: if k in NullRows(rows) then files[k.file].newId else rows[k]
  }

  /** The pairs of a persona and a file of one of its folders. */
  function Wanted(folders: set<PersonaFolder>, files: map<int, FileRow>): set<PersonaFile> {
    set p, f | p in folders && f in files && files[f].folder == Some(p.folder) :: PersonaFile(p.persona, f)
  }

  /** The ids of filed files, each with the folder: what project__user_file must hold. */
  function ProjectPair(r: FileRow): Option<ProjectFile> {
    if r.folder.Some? && r.newId.Some? then Some(ProjectFile(r.folder.value, r.newId.value)) else None
  }

  function Unprojected(projects: set<ProjectFile>, files: map<int, FileRow>): set<int> {
    set f | f in files && ProjectPair(files[f]).Some? && ProjectPair(files[f]).value !in projects
  }

  function PairsOf(fs: set<int>, files: map<int, FileRow>): set<ProjectFile> {
    set f | f in fs && f in files && ProjectPair(files[f]).Some? :: ProjectPair(files[f]).value
  }

  /** The unique constraint on user_file.new_id. */
  predicate UniqueIds(files: map<int, FileRow>) {
    forall f, g | f in files && g in files && f != g && files[f].newId.Some? :: files[f].newId != files[g].newId
  }

  lemma {:induction false} PairsKeepSize(fs: set<int>, files: map<int, FileRow>)
    requires UniqueIds(files)
    requires forall f | f in fs :: f in files && ProjectPair(files[f]).Some?
    ensures |PairsOf(fs, files)| == |fs|
  {
    if fs == {} {
      assert PairsOf(fs, files) == {};
    } else {
      var f := Member(fs);
      var rest := fs - {f};
      PairsKeepSize(rest, files);
      var pair := ProjectPair(files[f]).value;
      assert pair !in PairsOf(rest, files);
      assert PairsOf(fs, files) == PairsOf(rest, files) + {pair};
    }
  }

  /** Row by row: a missing id is generated, all else stays. */
  lemma {:induction false} FilledRows(files: map<int, FileRow>, generated: int -> Uuid)
    ensures Filled(files, generated).Keys == files.Keys
    ensures forall f | f in files ::
              var row := Filled(files, generated)[f];
              && row.folder == files[f].folder
              && (files[f].newId.Some? ==> row.newId == files[f].newId)
              && (files[f].newId.None? ==> row.newId == Some(generated(f)))
  {}

  lemma {:induction false} ResolvedRows(rows: map<PersonaFile, Option<Uuid>>, files: map<int, FileRow>)
    requires forall k | k in NullRows(rows) :: k.file in files
    ensures Resolved(rows, files).Keys == rows.Keys
    ensures forall k | k in rows ::
              && (rows[k].Some? ==> Resolved(rows, files)[k] == rows[k])
              && (rows[k].None? ==> Resolved(rows, files)[k] == files[k.file].newId)
  {}

  /** A pair is wanted exactly when the persona has the folder the file is in. */
  lemma {:induction false} WantedIff(folders: set<PersonaFolder>, files: map<int, FileRow>, persona: int, file: int)
    ensures PersonaFile(persona, file) in Wanted(folders, files) <==>
              file in files && files[file].folder.Some? && PersonaFolder(persona, files[file].folder.value) in folders
  {
    if file in files && files[file].folder.Some? && PersonaFolder(persona, files[file].folder.value) in folders {
      var p := PersonaFolder(persona, files[file].folder.value);
      assert files[file].folder == Some(p.folder);
    }
  }

  /** A project row is due exactly for a file with that folder and that id. */
  lemma {:induction false} PairsIff(fs: set<int>, files: map<int, FileRow>, project: int, file: Uuid)
    ensures ProjectFile(project, file) in PairsOf(fs, files) <==>
              exists f :: f in fs && f in files && files[f] == FileRow(Some(project), Some(file))
  {}

  // ---------------------------------------------------------------- the migrations

  class UserFileTables {
    var files: map<int, FileRow>
    var personaFiles: map<PersonaFile, Option<Uuid>>
    var personaFolders: set<PersonaFolder>
    var projectFiles: set<ProjectFile>

    /**
     user_file.new_id: whatever rows each statement picks, every row has an id in the end, as many
     are updated as were counted, and the check for missing ids does not raise.
     */
    method FillNewIds(limit: nat, generated: int -> Uuid) returns (total: nat, raised: bool)
      requires limit > 0
      modifies this`files
      ensures files == Filled(old(files), generated)
      ensures total == |NullIds(old(files))|
      ensures !raised && NullIds(files) == {}
    {
      total := 0;
      if |NullIds(files)| > 0 {
        var more := true;
        while more
          invariant Numbers(old(files), files, generated)
          invariant total == |NullIds(old(files))| - |NullIds(files)|
          invariant !more ==> NullIds(files) == {}
          decreases |NullIds(files)|, more
        {
          ghost var before := files;
          var updated := NumberBatch(limit, generated);
          NumbersOn(old(files), before, files, generated);
          total := total + updated;
          more := updated >= limit;
        }
      }
      raised := |NullIds(files)| > 0;
      assert NullIds(files) == {};
      NumbersAll(old(files), files, generated);
    }

    /** One UPDATE statement. */
    method NumberBatch(limit: nat, generated: int -> Uuid) returns (count: nat)
      modifies this`files
      ensures Numbers(old(files), files, generated)
      ensures count == |NullIds(old(files))| - |NullIds(files)|
      ensures count < limit ==> NullIds(files) == {}
    {
      var nulls := NullIds(files);
      var chosen := Pick(nulls, limit);
      NumberedRows(files, chosen, generated);
      files := Numbered(files, chosen, generated);
      SubsetSize(chosen, nulls);
      count := |chosen|;
      if count < limit {
        assert nulls - chosen == {};
      }
    }

    /**
     persona__user_file.user_file_id_uuid: a statement picks rows but updates all rows of their
     personas, so possibly more than the limit. The check raises exactly when some row without an
     id refers to no file; otherwise every such row was updated once.
     */
    method FillReferences(limit: nat) returns (total: nat, raised: bool)
      requires limit > 0 && AllNumbered(files)
      modifies this`personaFiles
      ensures raised <==> Dangling(old(personaFiles), files)
      ensures !raised ==> personaFiles == Resolved(old(personaFiles), files) && total == |NullRows(old(personaFiles))|
    {
      total := 0;
      if |NullRows(personaFiles)| > 0 {
        var more := true;
        while more
          invariant Advances(old(personaFiles), personaFiles, files)
          invariant total == |NullRows(old(personaFiles))| - |NullRows(personaFiles)|
          invariant !more ==> NullRows(personaFiles) == {} || Dangling(personaFiles, files)
          decreases |NullRows(personaFiles)|, more
        {
          ghost var before := personaFiles;
          var updated := UpdateBatch(limit);
          AdvancesOn(old(personaFiles), before, personaFiles, files);
          total := total + updated;
          more := updated >= limit;
        }
      }
      raised := |NullRows(personaFiles)| > 0;
      AdvancedTo(old(personaFiles), personaFiles, files);
    }

    /** One UPDATE statement: with fewer rows than the limit, only rows without a file are left. */
    method UpdateBatch(limit: nat) returns (count: nat)
      requires AllNumbered(files)
      modifies this`personaFiles
      ensures Advances(old(personaFiles), personaFiles, files)
      ensures count == |NullRows(old(personaFiles))| - |NullRows(personaFiles)|
      ensures count < limit ==> NullRows(personaFiles) == {} || Dangling(personaFiles, files)
    {
      var nulls := NullRows(personaFiles);
      var chosen := Pick(nulls, limit);
      var personas := set k | k in chosen :: k.persona;
      var updated := set k | k in nulls && k.file in files && k.persona in personas;
      UpdatedRows(personaFiles, updated, files);
      personaFiles := Updated(personaFiles, updated, files);
      SubsetSize(updated, nulls);
      count := |updated|;
      if count < limit && !Dangling(personaFiles, files) {
        forall k | k in chosen ensures k in updated {
          assert k.persona in personas;
          assert k.file in files || k in NullRows(personaFiles);
        }
        ChosenAreUpdated(nulls, chosen, updated, limit);
      }
    }

    /**
     persona__user_folder to persona__user_file: in the end there is a row for every pair wanted,
     rows that were there are untouched, and as many are inserted as pairs were counted missing.
     */
    method LinkPersonaFiles(limit: nat) returns (total: nat)
      requires limit > 0
      modifies this`personaFiles
      ensures personaFiles.Keys == old(personaFiles).Keys + Wanted(personaFolders, files)
      ensures Joined(old(personaFiles), personaFiles, files)
      ensures total == |Wanted(personaFolders, files) - old(personaFiles).Keys|
    {
      total := 0;
      var wanted := Wanted(personaFolders, files);
      WantedHaveFiles(personaFolders, files);
      LinkIsEmpty(wanted, personaFiles);
      if |wanted - personaFiles.Keys| > 0 {
        total := InsertAll(wanted, limit);
      }
    }

    /** The loop; the query finds the same pairs every time, as its tables do not change. */
    method InsertAll(wanted: set<PersonaFile>, limit: nat) returns (total: nat)
      requires limit > 0 && forall k | k in wanted :: k.file in files
      modifies this`personaFiles
      ensures personaFiles.Keys == old(personaFiles).Keys + wanted
      ensures Joined(old(personaFiles), personaFiles, files)
      ensures total == |wanted - old(personaFiles).Keys|
    {
      total := 0;
      var more := true;
      while more
        invariant personaFiles.Keys <= old(personaFiles).Keys + wanted
        invariant Joined(old(personaFiles), personaFiles, files)
        invariant total == |wanted - old(personaFiles).Keys| - |wanted - personaFiles.Keys|
        invariant !more ==> wanted - personaFiles.Keys == {}
        decreases |wanted - personaFiles.Keys|, more
      {
        ghost var before := personaFiles;
        var inserted := InsertBatch(wanted, limit);
        JoinedOn(old(personaFiles), before, personaFiles, files);
        total := total + inserted;
        more := inserted >= limit;
      }
      JoinedKeys(old(personaFiles), personaFiles, files, wanted);
    }

    /** One INSERT statement: with fewer rows than the limit, no pair is missing any more. */
    method InsertBatch(wanted: set<PersonaFile>, limit: nat) returns (count: nat)
      requires forall k | k in wanted :: k.file in files
      modifies this`personaFiles
      ensures personaFiles.Keys <= old(personaFiles).Keys + wanted
      ensures Joined(old(personaFiles), personaFiles, files)
      ensures count == |wanted - old(personaFiles).Keys| - |wanted - personaFiles.Keys|
      ensures count < limit ==> wanted - personaFiles.Keys == {}
    {
      var pool := wanted - personaFiles.Keys;
      var chosen := Pick(pool, limit);
      ghost var before := personaFiles;
      personaFiles := WithPairs(personaFiles, chosen, files);
      MissingAfter(wanted, before.Keys, chosen);
      SubsetSize(chosen, pool);
      count := |chosen|;
    }

    /**
     user_file.folder_id to project__user_file: conflicting rows are skipped and not counted, but
     with unique ids there are none, so every filed file gets its row, each counted once.
     */
    method LinkProjectFiles(limit: nat) returns (total: nat)
      requires limit > 0 && UniqueIds(files)
      modifies this`projectFiles
      ensures projectFiles == old(projectFiles) + PairsOf(files.Keys, files)
      ensures total == |Unprojected(old(projectFiles), files)|
    {
      total := 0;
      if |Unprojected(projectFiles, files)| > 0 {
        var more := true;
        while more
          invariant old(projectFiles) <= projectFiles <= old(projectFiles) + PairsOf(files.Keys, files)
          invariant Unprojected(projectFiles, files) <= Unprojected(old(projectFiles), files)
          invariant total == |Unprojected(old(projectFiles), files)| - |Unprojected(projectFiles, files)|
          invariant !more ==> Unprojected(projectFiles, files) == {}
          decreases |Unprojected(projectFiles, files)|, more
        {
          var pool := Unprojected(projectFiles, files);
          var chosen := Pick(pool, limit);
          var inserted := PairsOf(chosen, files) - projectFiles;
          PairsKeepSize(chosen, files);
          PairsLeave(projectFiles, files, chosen);
          projectFiles := projectFiles + inserted;
          SubsetSize(chosen, pool);
          total := total + |inserted|;
          more := |inserted| >= limit;
        }
      }
      NothingUnprojected(projectFiles, files);
    }
  }

  /** Rows are as before, or had no id and have the generated one. */
  ghost predicate Numbers(before: map<int, FileRow>, after: map<int, FileRow>, generated: int -> Uuid) {
    && before.Keys == after.Keys
    && forall f | f in before ::
         after[f] == before[f] || (before[f].newId.None? && after[f] == before[f].(newId := Some(generated(f))))
  }

  lemma {:induction false} NumbersOn(a: map<int, FileRow>, b: map<int, FileRow>, c: map<int, FileRow>,
                                     generated: int -> Uuid)
    requires Numbers(a, b, generated) && Numbers(b, c, generated)
    ensures Numbers(a, c, generated)
  {
  }

  lemma {:induction false} NumbersAll(before: map<int, FileRow>, after: map<int, FileRow>, generated: int -> Uuid)
    requires Numbers(before, after, generated) && NullIds(after) == {}
    ensures after == Filled(before, generated)
  {
    forall f | f in before ensures after[f] == Filled(before, generated)[f] {
      assert f !in NullIds(after);
    }
  }

  function Numbered(files: map<int, FileRow>, chosen: set<int>, generated: int -> Uuid): map<int, FileRow> {
    map f | f in files :: if f in chosen then files[f].(newId := Some(generated(f))) else files[f]
  }

  lemma {:induction false} NumberedRows(files: map<int, FileRow>, chosen: set<int>, generated: int -> Uuid)
    requires chosen <= NullIds(files)
    ensures Numbers(files, Numbered(files, chosen, generated), generated)
    ensures NullIds(Numbered(files, chosen, generated)) == NullIds(files) - chosen
  {
  }

  /** Some row without an id refers to no file. */
  predicate Dangling(rows: map<PersonaFile, Option<Uuid>>, files: map<int, FileRow>) {
    exists k :: k in NullRows(rows) && k.file !in files
  }

  /** Rows are as before, or had no id and have that of their file. */
  ghost predicate Advances(before: map<PersonaFile, Option<Uuid>>, after: map<PersonaFile, Option<Uuid>>,
                           files: map<int, FileRow>) {
    && before.Keys == after.Keys
    && forall k | k in before ::
         after[k] == before[k] || (before[k].None? && k.file in files && after[k] == files[k.file].newId)
  }

  function Updated(rows: map<PersonaFile, Option<Uuid>>, chosen: set<PersonaFile>, files: map<int, FileRow>)
    : map<PersonaFile, Option<Uuid>>
    requires forall k | k in chosen :: k.file in files
  {
    map k | k in rows :: if k in chosen then files[k.file].newId else rows[k]
  }

  lemma {:induction false} UpdatedRows(rows: map<PersonaFile, Option<Uuid>>, chosen: set<PersonaFile>,
                                       files: map<int, FileRow>)
    requires AllNumbered(files) && chosen <= NullRows(rows) && forall k | k in chosen :: k.file in files
    ensures Advances(rows, Updated(rows, chosen, files), files)
    ensures NullRows(Updated(rows, chosen, files)) == NullRows(rows) - chosen
  {
    var r := Updated(rows, chosen, files);
    forall k: PersonaFile ensures k in NullRows(r) <==> k in NullRows(rows) - chosen {
      if k in rows {
        assert k in chosen ==> r[k] == files[k.file].newId && files[k.file].newId.Some?;
        assert k !in chosen ==> r[k] == rows[k];
      }
    }
  }

  lemma {:induction false} AdvancesOn(a: map<PersonaFile, Option<Uuid>>, b: map<PersonaFile, Option<Uuid>>,
                                      c: map<PersonaFile, Option<Uuid>>,
                   files: map<int, FileRow>)
    requires AllNumbered(files) && Advances(a, b, files) && Advances(b, c, files)
    ensures Advances(a, c, files)
  {
  }

  /** Where the updates end: no row left, or one that no update can reach. */
  lemma {:induction false} AdvancedTo(before: map<PersonaFile, Option<Uuid>>, after: map<PersonaFile, Option<Uuid>>,
                                      files: map<int, FileRow>)
    requires AllNumbered(files) && Advances(before, after, files)
    requires NullRows(after) == {} || Dangling(after, files)
    ensures |NullRows(after)| > 0 <==> Dangling(before, files)
    ensures NullRows(after) == {} ==> after == Resolved(before, files)
  {
    if Dangling(before, files) {
      var k :| k in NullRows(before) && k.file !in files;
      assert k in NullRows(after);
    }
    if Dangling(after, files) {
      var k :| k in NullRows(after) && k.file !in files;
      assert k in NullRows(before);
    } else {
      forall k | k in NullRows(before) ensures k.file in files {
        assert k !in NullRows(after);
      }
      forall k | k in before ensures after[k] == Resolved(before, files)[k] {
        assert k !in NullRows(after);
      }
    }
  }

  /** Rows that were there are as before, and new ones hold the id of their file. */
  ghost predicate Joined(before: map<PersonaFile, Option<Uuid>>, after: map<PersonaFile, Option<Uuid>>,
                         files: map<int, FileRow>) {
    && (forall k | k in before :: k in after && after[k] == before[k])
    && (forall k | k in after && k !in before :: k.file in files && after[k] == files[k.file].newId)
  }

  lemma {:induction false} JoinedOn(a: map<PersonaFile, Option<Uuid>>, b: map<PersonaFile, Option<Uuid>>,
                                    c: map<PersonaFile, Option<Uuid>>,
                 files: map<int, FileRow>)
    requires Joined(a, b, files) && Joined(b, c, files)
    ensures Joined(a, c, files)
  {
  }

  function WithPairs(rows: map<PersonaFile, Option<Uuid>>, more: set<PersonaFile>, files: map<int, FileRow>)
    : (r: map<PersonaFile, Option<Uuid>>)
    requires forall k | k in more :: k.file in files && k !in rows
    ensures r.Keys == rows.Keys + more && Joined(rows, r, files)
  {
    rows + map k | k in more :: files[k.file].newId
  }

  lemma {:induction false} MissingAfter(wanted: set<PersonaFile>, keys: set<PersonaFile>, chosen: set<PersonaFile>)
    ensures wanted - (keys + chosen) == (wanted - keys) - chosen
  {
  }

  lemma {:induction false} JoinedKeys(a: map<PersonaFile, Option<Uuid>>, b: map<PersonaFile, Option<Uuid>>,
                                      files: map<int, FileRow>, wanted: set<PersonaFile>)
    requires Joined(a, b, files) && b.Keys <= a.Keys + wanted && wanted - b.Keys == {}
    ensures b.Keys == a.Keys + wanted
  {
    forall k | k in wanted ensures k in b.Keys {
      assert k in b.Keys || k in wanted - b.Keys;
    }
  }

  lemma {:induction false} LinkIsEmpty(wanted: set<PersonaFile>, rows: map<PersonaFile, Option<Uuid>>)
    ensures |wanted - rows.Keys| == 0 ==> rows.Keys == rows.Keys + wanted && wanted - rows.Keys == {}
  {
    if |wanted - rows.Keys| == 0 {
      assert wanted - rows.Keys == {};
      forall k | k in wanted ensures k in rows.Keys {
        assert k in rows.Keys || k in wanted - rows.Keys;
      }
    }
  }

  lemma {:induction false} WantedHaveFiles(folders: set<PersonaFolder>, files: map<int, FileRow>)
    ensures forall k | k in Wanted(folders, files) :: k.file in files
  {
  }

  /** With every chosen row updated and fewer than the limit, the chosen rows were all there were. */
  lemma {:induction false} ChosenAreUpdated(nulls: set<PersonaFile>, chosen: set<PersonaFile>,
                                            updated: set<PersonaFile>, limit: nat)
    requires chosen <= nulls && |chosen| == Smaller(limit, |nulls|) && updated <= nulls && |updated| < limit
    requires chosen <= updated
    ensures nulls - updated == {}
  {
    SubsetSize(chosen, updated);
    SubsetSize(chosen, nulls);
    SubsetSize(updated, nulls);
  }

  /** Inserting the pairs of some files takes exactly those files off the list. */
  lemma {:induction false} PairsLeave(projects: set<ProjectFile>, files: map<int, FileRow>, chosen: set<int>)
    requires UniqueIds(files) && chosen <= Unprojected(projects, files)
    ensures PairsOf(chosen, files) - projects == PairsOf(chosen, files)
    ensures Unprojected(projects + PairsOf(chosen, files), files) == Unprojected(projects, files) - chosen
    ensures PairsOf(chosen, files) <= PairsOf(files.Keys, files)
  {
    forall f | f in Unprojected(projects, files) && ProjectPair(files[f]).value in PairsOf(chosen, files)
      ensures f in chosen
    {
      var g :| g in chosen && g in files && ProjectPair(files[g]).Some?
          && ProjectPair(files[g]).value == ProjectPair(files[f]).value;
      assert files[g].newId == files[f].newId;
    }
    forall f | f in chosen ensures ProjectPair(files[f]).value in PairsOf(chosen, files) {
    }
  }

  lemma {:induction false} NothingUnprojected(projects: set<ProjectFile>, files: map<int, FileRow>)
    requires Unprojected(projects, files) == {}
    ensures PairsOf(files.Keys, files) <= projects
  {
    forall p | p in PairsOf(files.Keys, files) ensures p in projects {
      var f :| f in files && ProjectPair(files[f]) == Some(p);
      assert f !in Unprojected(projects, files);
    }
  }

  // ---------------------------------------------------------------- batch_delete

  function Elements(ids: seq<int>): set<int> { set x | x in ids }

  /** The number of the batch that position `k` is in. */
  function BatchOf(size: nat, k: nat): nat
    requires size > 0
  {
    k / size
  }

  /** The ids among the first `n` whose batch did not fail. */
  function Reached(ids: seq<int>, size: nat, fails: nat -> bool, n: nat): set<int>
    requires size > 0 && n <= |ids|
  {
    set k | 0 <= k < n && !fails(BatchOf(size, k)) :: ids[k]
  }

  function FailedBatches(count: nat, fails: nat -> bool): nat {
    if count == 0 then 0 else FailedBatches(count - 1, fails) + (if fails(count - 1) then 1 else 0)
  }

  /** The rows of a table, by primary key: the value of the column the deletion goes by. */
  function Without(rows: map<int, int>, ids: set<int>): map<int, int> {
    map k | k in rows && rows[k] !in ids :: rows[k]
  }

  lemma {:induction false} WithoutNone(rows: map<int, int>)
    ensures Without(rows, {}) == rows
  {
  }

  lemma {:induction false} WithoutTwice(rows: map<int, int>, a: set<int>, b: set<int>)
    ensures Without(Without(rows, a), b) == Without(rows, a + b)
  {
  }

  /** Where batch `b` starts. */
  function BatchStart(size: nat, b: nat): nat {
    if b == 0 then 0 else BatchStart(size, b - 1) + size
  }

  lemma {:induction false} BatchStartIs(size: nat, b: nat)
    ensures BatchStart(size, b) == b * size
  {
    if b > 0 {
      BatchStartIs(size, b - 1);
      assert b * size == (b - 1) * size + size;
    }
  }

  /** With the last of `b` batches starting inside the list, and the next one not, there are `b`. */
  lemma {:induction false} BatchesAre(total: nat, size: nat, b: nat)
    requires size > 0 && total <= BatchStart(size, b) && (b > 0 ==> BatchStart(size, b - 1) < total)
    ensures b == Ceiling(total, size)
  {
    if b == 0 {
      CeilingOfNone(size);
    } else {
      BatchStartIs(size, b - 1);
      CeilingOf(b - 1, total - BatchStart(size, b - 1), size);
    }
  }

  lemma {:induction false} InBatch(size: nat, b: nat, k: nat)
    requires size > 0 && BatchStart(size, b) <= k < BatchStart(size, b) + size
    ensures BatchOf(size, k) == b
  {
    BatchStartIs(size, b);
    Quotient(k, size, b);
  }

  /** One batch more. */
  lemma {:induction false} ReachedMore(ids: seq<int>, size: nat, fails: nat -> bool, b: nat, i: nat, e: nat)
    requires size > 0 && i == BatchStart(size, b) && i <= e <= |ids| && e <= i + size
    ensures Reached(ids, size, fails, e)
                == Reached(ids, size, fails, i) + (if fails(b) then {} else Elements(ids[i..e]))
  {
    forall k | i <= k < e ensures BatchOf(size, k) == b {
      InBatch(size, b, k);
    }
    SliceElements(ids, i, e);
    ReachedByPosition(ids, size, fails, b, i, e);
  }

  lemma {:induction false} SliceElements(ids: seq<int>, i: nat, e: nat)
    requires i <= e <= |ids|
    ensures forall x :: x in Elements(ids[i..e]) <==> exists k :: i <= k < e && ids[k] == x
  {
    forall x ensures x in Elements(ids[i..e]) <==> exists k :: i <= k < e && ids[k] == x {
      if x in ids[i..e] {
        var j :| 0 <= j < e - i && ids[i..e][j] == x;
        assert ids[i + j] == x;
      }
      if k :| i <= k < e && ids[k] == x {
        assert ids[i..e][k - i] == x;
      }
    }
  }

  lemma {:induction false} ReachedByPosition(ids: seq<int>, size: nat, fails: nat -> bool, b: nat, i: nat, e: nat)
    requires size > 0 && i <= e <= |ids|
    requires forall k | i <= k < e :: BatchOf(size, k) == b
    requires forall x :: x in Elements(ids[i..e]) <==> exists k :: i <= k < e && ids[k] == x
    ensures Reached(ids, size, fails, e)
                == Reached(ids, size, fails, i) + (if fails(b) then {} else Elements(ids[i..e]))
  {
  }

  lemma {:induction false} NoFailure(count: nat, fails: nat -> bool, j: nat)
    requires FailedBatches(count, fails) == 0 && j < count
    ensures !fails(j)
  {
    if j < count - 1 {
      NoFailure(count - 1, fails, j);
    }
  }

  lemma {:induction false} BatchInRange(total: nat, size: nat, k: nat)
    requires size > 0 && k < total
    ensures BatchOf(size, k) < Ceiling(total, size)
  {
    var q, c := k / size, Ceiling(total, size);
    assert q * size <= k && total + size - 1 < c * size + size;
    if c < q {
      MultiplesApart(c, q, size);
    }
  }

  /** When the call returns normally every listed id is gone, so the rows left hold none of them. */
  lemma {:induction false} NormalReturnClears(ids: seq<int>, size: nat, fails: nat -> bool)
    requires size > 0 && FailedBatches(Ceiling(|ids|, size), fails) == 0
    ensures Reached(ids, size, fails, |ids|) == Elements(ids)
  {
    forall k | 0 <= k < |ids| ensures ids[k] in Reached(ids, size, fails, |ids|) {
      BatchInRange(|ids|, size, k);
      NoFailure(Ceiling(|ids|, size), fails, BatchOf(size, k));
    }
  }

  class Table {
    var rows: map<int, int>

    constructor (rows: map<int, int>)
      ensures this.rows == rows
    {
      this.rows := rows;
    }

    /** One DELETE statement. */
    method DeleteWhereAny(ids: seq<int>) returns (count: nat)
      modifies this
      ensures rows == Without(old(rows), Elements(ids))
      ensures count == |old(rows)| - |rows|
    {
      var gone := set k | k in rows && rows[k] in ids;
      var kept := map k | k in rows && rows[k] !in ids :: rows[k];
      count := |gone|;
      assert kept.Keys == rows.Keys - gone;
      SubsetSize(gone, rows.Keys);
      rows := kept;
      assert rows == Without(old(rows), Elements(ids));
    }

    /** The statement of one batch, which may raise and then does nothing. */
    method DeleteBatch(batch: seq<int>, raises: bool, ghost before: map<int, int>, ghost gone: set<int>)
      returns (count: nat)
      requires rows == Without(before, gone)
      modifies this
      ensures count == |old(rows)| - |rows|
      ensures rows == Without(before, gone + (if raises then {} else Elements(batch)))
    {
      count := 0;
      if raises {
        assert gone + {} == gone;
      } else {
        WithoutTwice(before, gone, Elements(batch));
        count := DeleteWhereAny(batch);
      }
    }

    /** One turn of the loop: the ids from `i` to the end of batch `b`. */
    method DeleteNext(ids: seq<int>, size: nat, fails: nat -> bool, i: nat, b: nat, ghost before: map<int, int>)
      returns (e: nat, count: nat)
      requires size > 0 && i == BatchStart(size, b) < |ids|
      requires rows == Without(before, Reached(ids, size, fails, i))
      modifies this
      ensures e == Smaller(BatchStart(size, b + 1), |ids|)
      ensures rows == Without(before, Reached(ids, size, fails, e))
      ensures count == |old(rows)| - |rows|
    {
      e := Smaller(i + size, |ids|);
      ReachedMore(ids, size, fails, b, i, e);
      count := DeleteBatch(ids[i..e], fails(b), before, Reached(ids, size, fails, i));
    }

    /**
     `batch_delete`: batches that raise are skipped and remembered. Exactly the ids of the other
     batches are gone, no other row is touched, and the call returns normally, with the number of
     rows deleted, exactly when no batch failed.
     */
    method BatchDelete(ids: seq<int>, size: nat, fails: nat -> bool) returns (r: Result<nat>)
      requires size > 0
      modifies this
      ensures rows == Without(old(rows), Reached(ids, size, fails, |ids|))
      ensures r.Ok? <==> FailedBatches(Ceiling(|ids|, size), fails) == 0
      ensures r.Ok? ==> r.value == |old(rows)| - |rows|
    {
      var deleted := 0;
      var failed := 0;
      var i := 0;
      var b := 0;
      WithoutNone(rows);
      while i < |ids|
        invariant i == Smaller(BatchStart(size, b), |ids|) && (b > 0 ==> BatchStart(size, b - 1) < |ids|)
        invariant failed == FailedBatches(b, fails)
        invariant deleted == |old(rows)| - |rows|
        invariant rows == Without(old(rows), Reached(ids, size, fails, i))
        decreases |ids| - i
      {
        var e, count := DeleteNext(ids, size, fails, i, b, old(rows));
        if fails(b) {
          failed := failed + 1;
        }
        deleted := deleted + count;
        i, b := e, b + 1;
      }
      BatchesAre(|ids|, size, b);
      if failed > 0 {
        return Err("Batch deletion failed");
      }
      return Ok(deleted);
    }
  }
}
