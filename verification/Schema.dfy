/** Opening the index: creating its schema, recovering a version-zero file and migrating version 1,
    with any statement liable to fail. */
module Schema {
  import opened Text
  import opened IndexTables

  datatype Ddl =
    | CreateTable(name: string, columns: set<string>)
    | CreateIndex(name: string, table: string, columns: set<string>)

  /** A stored note: its title, its lookup key (empty while the column does not exist) and the rest
      of its columns. */
  datatype Row = Row(title: string, key: string, rest: string)

  datatype Db = Db(version: int, tables: map<string, set<string>>, indexes: set<string>, notes: map<Key, Row>, links: map<LinkKey, string>)

  const CURRENT_VERSION := 2

  const V1_NOTE_COLUMNS: set<string> :=
    {"id", "workspace_id", "path", "title", "last_modified", "content_hash", "okf_conformant"}

  const V2_NOTE_COLUMNS: set<string> := V1_NOTE_COLUMNS + {"title_lookup_key"}

  /** `schema.sql`; every statement says IF NOT EXISTS. */
  const SCHEMA: seq<Ddl> := [
    CreateTable("workspaces", {"id", "name", "provider", "remote_url", "local_path"}),
    CreateTable("notes", V2_NOTE_COLUMNS),
    CreateIndex("idx_notes_title_lookup", "notes", {"workspace_id", "title_lookup_key", "title", "id"}),
    CreateTable("links", {"workspace_id", "source_id", "target_id", "target_title"}),
    CreateIndex("idx_links_target", "links", {"workspace_id", "target_id"}),
    CreateTable("notes_fts", {"title", "content"}),
    CreateTable("fts_mapping", {"workspace_id", "note_id", "fts_rowid"}),
    CreateIndex("idx_fts_mapping_rowid", "fts_mapping", {"fts_rowid"}),
    CreateTable("drafts", {"workspace_id", "note_id", "raw_markdown", "updated_at", "edit_seq"}),
    CreateTable("directories", {"id", "workspace_id", "path"})]

  // ----- statements

  predicate Exists(db: Db, d: Ddl) {
    match d case CreateTable(name, _) => name in db.tables case CreateIndex(name, _, _) => name in db.indexes
  }

  /** An index needs its table and its columns. */
  function Create(db: Db, d: Ddl): Option<Db> {
    if Exists(db, d) then Some(db)
    else
      match d
      case CreateTable(name, columns) => Some(db.(tables := db.tables[name := columns]))
      case CreateIndex(name, table, columns) =>
        if table in db.tables && columns <= db.tables[table] then Some(db.(indexes := db.indexes + {name})) else None
  }

  function CreateAll(db: Db, ddl: seq<Ddl>): Option<Db>
    decreases |ddl|
  {
    if ddl == [] then Some(db)
    else
      var before := CreateAll(db, ddl[..|ddl| - 1]);
      if before.None? then None else Create(before.value, ddl[|ddl| - 1])
  }

  /** The new column holds the empty string until it is filled. */
  function ColumnAdded(db: Db): Option<Db> {
    if "notes" !in db.tables || "title_lookup_key" in db.tables["notes"] then None
    else Some(db.(tables := db.tables["notes" := db.tables["notes"] + {"title_lookup_key"}],
                  notes := map k | k in db.notes :: db.notes[k].(key := "")))
  }

  function KeysFilled(db: Db, fold: string -> string): Db {
    db.(notes := map k | k in db.notes :: db.notes[k].(key := fold(db.notes[k].title)))
  }

  function SchemaApplied(db: Db): Option<Db> {
    var created := CreateAll(db, SCHEMA);
    if created.None? then None else Some(created.value.(version := CURRENT_VERSION))
  }

  function Migrated(db: Db, fold: string -> string): Option<Db> {
    var added := ColumnAdded(db);
    if added.None? then None
    else
      var created := CreateAll(added.value, SCHEMA);
      if created.None? || !("notes" in created.value.tables && {"workspace_id", "id", "title"} <= created.value.tables["notes"]) then None
      else Some(KeysFilled(created.value, fold).(version := CURRENT_VERSION))
  }

  datatype Shape = Fresh | CurrentNotes | FirstNotes | Unknown

  /** What a version-zero file turns out to be. */
  function ShapeOf(db: Db): Shape {
    if "notes" !in db.tables then
      if db.tables.Keys == {} || db.tables.Keys == {"workspaces"} then Fresh else Unknown
    else if V2_NOTE_COLUMNS <= db.tables["notes"] then CurrentNotes
    else if V1_NOTE_COLUMNS <= db.tables["notes"] && "title_lookup_key" !in db.tables["notes"] then FirstNotes
    else Unknown
  }

  /** Where a run that does not fail ends. */
  function Initialized(db: Db, fold: string -> string): Option<Db> {
    if db.version == 0 then
      match ShapeOf(db)
      case Unknown => None
      case FirstNotes => Migrated(db, fold)
      case _ => SchemaApplied(db)
    else if db.version == 1 then Migrated(db, fold)
    else CreateAll(db, SCHEMA)
  }

  /** The rows still to be filled are as they were. */
  ghost predicate Filling(was: map<Key, Row>, now: map<Key, Row>, left: set<Key>, fold: string -> string) {
    && (forall k :: k in now <==> k in was) && (forall k :: k in left ==> k in was)
    && forall k :: k in was ==> now[k] == if k in left then was[k] else was[k].(key := fold(was[k].title))
  }

  lemma FillOne(was: map<Key, Row>, now: map<Key, Row>, left: set<Key>, fold: string -> string, k: Key)
    requires Filling(was, now, left, fold) && k in left
    ensures Filling(was, now[k := now[k].(key := fold(now[k].title))], left - {k}, fold)
  {
  }

  lemma AllFilled(start: Db, db: Db, fold: string -> string)
    requires db == start.(notes := db.notes) && Filling(start.notes, db.notes, {}, fold)
    ensures db == KeysFilled(start, fold)
  {
    assert db.notes == KeysFilled(start, fold).notes;
  }

  // ----- as it runs

  class Database {
    const fold: string -> string
    var db: Db
    /** What a rollback restores, while the immediate transaction is open. */
    var saved: Option<Db>
    var faults: Option<nat>

    constructor (fold: string -> string, db: Db, faults: Option<nat>)
      ensures this.fold == fold && this.db == db && saved == None && this.faults == faults
    {
      this.fold := fold;
      this.db := db;
      saved := None;
      this.faults := faults;
    }

    method Statement() returns (ok: bool)
      modifies this`faults
      ensures old(faults).None? ==> ok && faults.None?
    {
      if faults.None? { return true; }
      if faults.value == 0 {
        faults := None;
        return false;
      }
      faults := Some(faults.value - 1);
      return true;
    }

    /** A batch runs its statements one by one and stops at the first that fails. */
    method ExecuteSchema() returns (ok: bool)
      modifies this`db, this`faults
      ensures ok ==> CreateAll(old(db), SCHEMA) == Some(db)
      ensures !ok ==> exists n :: 0 <= n <= |SCHEMA| && CreateAll(old(db), SCHEMA[..n]) == Some(db)
      ensures old(faults).None? ==> faults.None? && (ok <==> CreateAll(old(db), SCHEMA).Some?)
    {
      hide Create;
      ghost var start := db;
      for i := 0 to |SCHEMA|
        invariant CreateAll(start, SCHEMA[..i]) == Some(db) && start == old(db)
        invariant old(faults).None? ==> faults.None?
      {
        assert SCHEMA[..i + 1][..i] == SCHEMA[..i];
        ok := Statement();
        if !ok { return; }
        var created := Create(db, SCHEMA[i]);
        if created.None? {
          StoppedShort(start, SCHEMA, i + 1);
          return false;
        }
        db := created.value;
      }
      assert SCHEMA[..|SCHEMA|] == SCHEMA;
      ok := true;
    }

    method SetVersion() returns (ok: bool)
      modifies this`db, this`faults
      ensures db == if ok then old(db).(version := CURRENT_VERSION) else old(db)
      ensures old(faults).None? ==> ok && faults.None?
    {
      ok := Statement();
      if ok { db := db.(version := CURRENT_VERSION); }
    }

    method ApplyCurrentSchema() returns (ok: bool)
      modifies this`db, this`faults
      ensures ok ==> SchemaApplied(old(db)) == Some(db)
      ensures old(faults).None? ==> faults.None? && (ok <==> SchemaApplied(old(db)).Some?)
    {
      hide CreateAll;
      ok := ExecuteSchema();
      if !ok { return; }
      ok := SetVersion();
    }

    method AddColumn() returns (ok: bool)
      modifies this`db, this`faults
      ensures ok ==> ColumnAdded(old(db)) == Some(db)
      ensures old(faults).None? ==> faults.None? && (ok <==> ColumnAdded(old(db)).Some?)
    {
      ok := Statement();
      if !ok { return; }
      var added := ColumnAdded(db);
      if added.None? { return false; }
      db := added.value;
    }

    /** One UPDATE per note. */
    method FillKeys() returns (ok: bool)
      modifies this`db, this`faults
      ensures ok ==> db == KeysFilled(old(db), fold)
      ensures old(faults).None? ==> ok && faults.None?
    {
      hide KeysFilled;
      var left := db.notes.Keys;
      ghost var start := db;
      while left != {}
        invariant db == start.(notes := db.notes) && Filling(start.notes, db.notes, left, fold)
        invariant old(faults).None? ==> faults.None?
        decreases |left|
      {
        var k :| k in left;
        ok := Statement();
        if !ok { return; }
        FillOne(start.notes, db.notes, left, fold, k);
        db := db.(notes := db.notes[k := db.notes[k].(key := fold(db.notes[k].title))]);
        left := left - {k};
      }
      AllFilled(start, db, fold);
      ok := true;
    }

    method MigrateInTransaction() returns (ok: bool)
      modifies this`db, this`faults
      ensures ok ==> Migrated(old(db), fold) == Some(db)
      ensures old(faults).None? ==> faults.None? && (ok <==> Migrated(old(db), fold).Some?)
    {
      hide CreateAll, ColumnAdded, KeysFilled;
      ok := AddColumn();
      if !ok { return; }
      ok := ExecuteSchema();
      if !ok { return; }
      ok := Statement();
      if !ok || "notes" !in db.tables || !({"workspace_id", "id", "title"} <= db.tables["notes"]) { return false; }
      ok := FillKeys();
      if !ok { return; }
      ok := SetVersion();
    }

    method Begin() returns (ok: bool)
      modifies this`saved, this`faults
      ensures saved == if ok then Some(db) else old(saved)
      ensures old(faults).None? ==> ok && faults.None?
    {
      ok := Statement();
      if ok { saved := Some(db); }
    }

    method End(went: bool) returns (ok: bool)
      requires saved.Some?
      modifies this`db, this`saved, this`faults
      ensures saved == None && (ok ==> went && db == old(db)) && (!ok ==> Some(db) == old(saved))
      ensures old(faults).None? ==> faults.None? && ok == went
    {
      ok := went;
      if ok { ok := Statement(); }
      if !ok { db := saved.value; }
      saved := None;
    }

    method RecoverVersionZero() returns (ok: bool)
      requires saved == None && db.version == 0
      modifies this
      ensures saved == None
      ensures if ok then Initialized(old(db), fold) == Some(db) else db == old(db)
      ensures old(faults).None? ==>
                (ok <==> (BarelyBegun(old(db)) || HasSecondNotes(old(db)) || HasFirstNotes(old(db))) && LinksServed(old(db)))
    {
      VersionZeroRecognised(db, fold);
      hide SchemaApplied, Migrated, CreateAll, BarelyBegun, HasSecondNotes, HasFirstNotes, LinksServed;
      ok := Begin();
      if !ok { return; }
      var went := Statement();
      if went {
        var shape := ShapeOf(db);
        if shape == FirstNotes { went := MigrateInTransaction(); }
        else if shape == Unknown { went := false; }
        else { went := ApplyCurrentSchema(); }
      }
      ok := End(went);
    }

    method MigrateV1() returns (ok: bool)
      requires saved == None && db.version == 1
      modifies this
      ensures saved == None
      ensures if ok then Initialized(old(db), fold) == Some(db) else db == old(db)
      ensures old(faults).None? ==> (ok <==> Initialized(old(db), fold).Some?)
    {
      hide Migrated, CreateAll;
      ok := Begin();
      if !ok { return; }
      var went := MigrateInTransaction();
      ok := End(went);
    }

    /** `init_schema`. Only the transaction of versions 0 and 1 protects what was there; a later
        version has its missing objects created one by one. */
    method InitSchema() returns (ok: bool)
      requires saved == None
      modifies this
      ensures saved == None
      ensures ok ==> Initialized(old(db), fold) == Some(db)
      ensures !ok && 0 <= old(db).version <= 1 ==> db == old(db)
      ensures !ok && !(0 <= old(db).version <= 1) ==> exists n :: 0 <= n <= |SCHEMA| && CreateAll(old(db), SCHEMA[..n]) == Some(db)
      ensures old(faults).None? ==> (ok <==> Initialized(old(db), fold).Some?)
    {
      if db.version == 0 { VersionZeroRecognised(db, fold); }
      hide SchemaApplied, Migrated, CreateAll, ShapeOf, BarelyBegun, HasSecondNotes, HasFirstNotes, LinksServed;
      ok := Statement();
      if ok { ok := Statement(); }
      if !ok {
        NothingRun(db);
        return;
      }
      if db.version == 0 { ok := RecoverVersionZero(); }
      else if db.version == 1 { ok := MigrateV1(); }
      else { ok := ExecuteSchema(); }
    }
  }

  lemma NothingRun(db: Db)
    ensures SCHEMA[..0] == [] && CreateAll(db, SCHEMA[..0]) == Some(db)
  {
  }

  /** A batch that stops at a statement has not run to its end. */
  lemma {:induction false} StoppedShort(db: Db, ddl: seq<Ddl>, n: nat)
    requires n <= |ddl| && CreateAll(db, ddl[..n]).None?
    ensures CreateAll(db, ddl).None?
    decreases |ddl|
  {
    if n < |ddl| {
      assert ddl[..|ddl| - 1][..n] == ddl[..n];
      StoppedShort(db, ddl[..|ddl| - 1], n);
    } else {
      assert ddl[..n] == ddl;
    }
  }

  // ----- what it leaves

  /** The batch adds missing objects and touches nothing else. */
  lemma {:induction false} CreateAdds(db: Db, ddl: seq<Ddl>)
    requires CreateAll(db, ddl).Some?
    ensures var d := CreateAll(db, ddl).value;
            d.version == db.version && d.notes == db.notes && d.links == db.links
            && (forall t :: t in db.tables ==> t in d.tables && d.tables[t] == db.tables[t]) && db.indexes <= d.indexes
            && forall i :: 0 <= i < |ddl| ==> Exists(d, ddl[i])
    decreases |ddl|
  {
    if ddl != [] {
      CreateAdds(db, ddl[..|ddl| - 1]);
      assert forall i :: 0 <= i < |ddl| - 1 ==> ddl[..|ddl| - 1][i] == ddl[i];
    }
  }

  lemma {:induction false} NothingToCreate(db: Db, ddl: seq<Ddl>)
    requires forall i :: 0 <= i < |ddl| ==> Exists(db, ddl[i])
    ensures CreateAll(db, ddl) == Some(db)
    decreases |ddl|
  {
    if ddl != [] {
      assert forall i :: 0 <= i < |ddl| - 1 ==> ddl[..|ddl| - 1][i] == ddl[i];
      NothingToCreate(db, ddl[..|ddl| - 1]);
    }
  }

  /** Every note row is there with all its columns, its lookup key aside. */
  ghost predicate RowsKept(db: Db, d: Db) {
    && d.notes.Keys == db.notes.Keys
    && (forall k :: k in db.notes ==> d.notes[k].title == db.notes[k].title && d.notes[k].rest == db.notes[k].rest)
    && d.links == db.links
  }

  ghost predicate KeysFolded(d: Db, fold: string -> string) {
    forall k :: k in d.notes ==> d.notes[k].key == fold(d.notes[k].title)
  }

  /** No notes table, and no other but perhaps the first one created. */
  ghost predicate BarelyBegun(db: Db) {
    "notes" !in db.tables && forall name :: name in db.tables ==> name == "workspaces"
  }

  /** A notes table with all its present columns. */
  ghost predicate HasSecondNotes(db: Db) {
    "notes" in db.tables
    && forall c :: c in {"id", "workspace_id", "path", "title", "title_lookup_key", "last_modified", "content_hash", "okf_conformant"} ==>
         c in db.tables["notes"]
  }

  /** A notes table with all the columns it first had, and without the one added since. */
  ghost predicate HasFirstNotes(db: Db) {
    "notes" in db.tables && "title_lookup_key" !in db.tables["notes"]
    && forall c :: c in {"id", "workspace_id", "path", "title", "last_modified", "content_hash", "okf_conformant"} ==> c in db.tables["notes"]
  }

  lemma ShapeMeans(db: Db)
    ensures ShapeOf(db) == Fresh <==> BarelyBegun(db)
    ensures ShapeOf(db) == CurrentNotes <==> HasSecondNotes(db)
    ensures ShapeOf(db) == FirstNotes <==> HasFirstNotes(db)
  {
    if BarelyBegun(db) {
      if "workspaces" in db.tables { assert db.tables.Keys == {"workspaces"}; } else { assert db.tables.Keys == {}; }
    }
    if db.tables.Keys == {} || db.tables.Keys == {"workspaces"} {
      assert forall name :: name in db.tables ==> name in db.tables.Keys;
    }
  }

  /** From version 0 or 1 a completed run reaches version 2 with every object of the schema, every
      note and link row kept, and the lookup keys of rows that had none folded from their titles;
      rows that had keys keep them. */
  lemma InitializedMeans(db: Db, fold: string -> string)
    requires 0 <= db.version <= 1 && Initialized(db, fold).Some?
    ensures var d := Initialized(db, fold).value;
            d.version == 2 && RowsKept(db, d) && (forall i :: 0 <= i < |SCHEMA| ==> Exists(d, SCHEMA[i]))
            && (db.version == 1 || HasFirstNotes(db) ==> KeysFolded(d, fold))
            && (db.version == 0 && (BarelyBegun(db) || HasSecondNotes(db)) ==> d.notes == db.notes)
  {
    ShapeMeans(db);
    hide CreateAll, SCHEMA, BarelyBegun, HasSecondNotes, HasFirstNotes;
    var d := Initialized(db, fold).value;
    if db.version == 1 || ShapeOf(db) == FirstNotes {
      CreateAdds(ColumnAdded(db).value, SCHEMA);
    } else {
      CreateAdds(db, SCHEMA);
    }
  }

  /** The table is there, with these columns if it was not there before. */
  ghost predicate TableMade(db: Db, d: Db, name: string, columns: set<string>) {
    name in d.tables && d.tables[name] == if name in db.tables then db.tables[name] else columns
  }

  lemma {:induction false} CreatesTable(db: Db, ddl: seq<Ddl>, i: nat)
    requires CreateAll(db, ddl).Some? && i < |ddl| && ddl[i].CreateTable?
    requires forall a, b :: 0 <= a < b < |ddl| ==> ddl[a].name != ddl[b].name
    ensures TableMade(db, CreateAll(db, ddl).value, ddl[i].name, ddl[i].columns)
    decreases |ddl|
  {
    var n := |ddl| - 1;
    var init := ddl[..n];
    assert forall a :: 0 <= a < n ==> init[a] == ddl[a];
    if i < n {
      CreatesTable(db, init, i);
    } else {
      OnlyNamedTables(db, init, ddl[n].name);
      CreateAdds(db, init);
    }
  }

  lemma {:induction false} OnlyNamedTables(db: Db, ddl: seq<Ddl>, name: string)
    requires CreateAll(db, ddl).Some? && forall a :: 0 <= a < |ddl| ==> ddl[a].name != name
    ensures name in CreateAll(db, ddl).value.tables <==> name in db.tables
    decreases |ddl|
  {
    if ddl != [] {
      var init := ddl[..|ddl| - 1];
      assert forall a :: 0 <= a < |init| ==> init[a] == ddl[a];
      OnlyNamedTables(db, init, name);
    }
  }

  lemma SchemaNames()
    ensures |SCHEMA| == 10 && forall a, b :: 0 <= a < b < |SCHEMA| ==> SCHEMA[a].name != SCHEMA[b].name
  {
  }

  /** The tables and indexes a whole batch leaves, by name. */
  lemma SchemaObjects(db: Db)
    requires CreateAll(db, SCHEMA).Some?
    ensures var d := CreateAll(db, SCHEMA).value;
            && TableMade(db, d, "workspaces", {"id", "name", "provider", "remote_url", "local_path"})
            && TableMade(db, d, "notes", {"id", "workspace_id", "path", "title", "title_lookup_key", "last_modified", "content_hash", "okf_conformant"})
            && TableMade(db, d, "links", {"workspace_id", "source_id", "target_id", "target_title"})
            && TableMade(db, d, "notes_fts", {"title", "content"})
            && TableMade(db, d, "fts_mapping", {"workspace_id", "note_id", "fts_rowid"})
            && TableMade(db, d, "drafts", {"workspace_id", "note_id", "raw_markdown", "updated_at", "edit_seq"})
            && TableMade(db, d, "directories", {"id", "workspace_id", "path"})
            && {"idx_notes_title_lookup", "idx_links_target", "idx_fts_mapping_rowid"} <= d.indexes
  {
    SchemaNames();
    hide CreateAll, TableMade;
    CreatesTable(db, SCHEMA, 0);
    CreatesTable(db, SCHEMA, 1);
    CreatesTable(db, SCHEMA, 3);
    CreatesTable(db, SCHEMA, 5);
    CreatesTable(db, SCHEMA, 6);
    CreatesTable(db, SCHEMA, 8);
    CreatesTable(db, SCHEMA, 9);
    NotesColumns();
    SchemaIndexes(db);
  }

  lemma SchemaIndexes(db: Db)
    requires CreateAll(db, SCHEMA).Some?
    ensures {"idx_notes_title_lookup", "idx_links_target", "idx_fts_mapping_rowid"} <= CreateAll(db, SCHEMA).value.indexes
  {
    hide CreateAll;
    CreateAdds(db, SCHEMA);
    var d := CreateAll(db, SCHEMA).value;
    assert Exists(d, SCHEMA[2]) && Exists(d, SCHEMA[4]) && Exists(d, SCHEMA[7]);
  }

  lemma NotesColumns()
    ensures V2_NOTE_COLUMNS == {"id", "workspace_id", "path", "title", "title_lookup_key", "last_modified", "content_hash", "okf_conformant"}
  {
  }

  /** A second run changes nothing. */
  lemma SecondRun(db: Db, fold: string -> string)
    requires 0 <= db.version <= 1 && Initialized(db, fold).Some?
    ensures Initialized(Initialized(db, fold).value, fold) == Initialized(db, fold)
  {
    hide SCHEMA, ShapeOf, Migrated, SchemaApplied, CreateAll, BarelyBegun, HasFirstNotes, HasSecondNotes;
    InitializedMeans(db, fold);
    NothingToCreate(Initialized(db, fold).value, SCHEMA);
  }

  /** Nor does a run on any later version whose objects are all there. */
  lemma LaterVersionsKept(db: Db, fold: string -> string)
    requires !(0 <= db.version <= 1) && forall i :: 0 <= i < |SCHEMA| ==> Exists(db, SCHEMA[i])
    ensures Initialized(db, fold) == Some(db)
  {
    NothingToCreate(db, SCHEMA);
  }

  /** The index is there already, or nothing stands in the way of creating it: its table has its
      columns, or is yet to be created with them. */
  ghost predicate Served(db: Db, index: string, table: string, columns: set<string>) {
    index in db.indexes || (table in db.tables ==> columns <= db.tables[table])
  }

  const NOTE_INDEX_COLUMNS: set<string> := {"workspace_id", "title_lookup_key", "title", "id"}

  ghost predicate LinksServed(db: Db) {
    Served(db, "idx_links_target", "links", {"workspace_id", "target_id"})
    && Served(db, "idx_fts_mapping_rowid", "fts_mapping", {"fts_rowid"})
  }

  ghost predicate Indexable(db: Db) {
    Served(db, "idx_notes_title_lookup", "notes", NOTE_INDEX_COLUMNS) && LinksServed(db)
  }

  /** An undisturbed version-zero run succeeds exactly on a file that was barely begun, or has the
      notes table of either version, unless an index that is missing cannot be created on a table
      that is there. */
  lemma VersionZeroRecognised(db: Db, fold: string -> string)
    requires db.version == 0
    ensures Initialized(db, fold).Some? <==> (BarelyBegun(db) || HasSecondNotes(db) || HasFirstNotes(db)) && LinksServed(db)
  {
    ShapeMeans(db);
    hide CreateAll, SCHEMA, BarelyBegun, HasSecondNotes, HasFirstNotes;
    NoteColumns();
    match ShapeOf(db) {
      case Fresh => SchemaRuns(db);
      case CurrentNotes => SchemaRuns(db);
      case FirstNotes =>
        var added := ColumnAdded(db).value;
        SchemaRuns(added);
        if Indexable(added) { CreateAdds(added, SCHEMA); }
      case Unknown =>
    }
  }

  /** An undisturbed migration from version 1 succeeds exactly on a notes table that has the columns
      it reads and not yet the one it adds, under the same condition on the other indexes. */
  lemma VersionOneMigrates(db: Db, fold: string -> string)
    requires db.version == 1
    ensures Initialized(db, fold).Some? <==>
            "notes" in db.tables && "title_lookup_key" !in db.tables["notes"]
            && {"workspace_id", "id", "title"} <= db.tables["notes"] && LinksServed(db)
  {
    hide CreateAll, SCHEMA;
    if ColumnAdded(db).Some? {
      var added := ColumnAdded(db).value;
      SchemaRuns(added);
      if Indexable(added) { CreateAdds(added, SCHEMA); }
      assert {"workspace_id", "id", "title"} <= db.tables["notes"] ==> NOTE_INDEX_COLUMNS <= added.tables["notes"];
      assert NOTE_INDEX_COLUMNS <= added.tables["notes"] ==> {"workspace_id", "id", "title"} <= db.tables["notes"];
    }
  }

  lemma NoteColumns()
    ensures NOTE_INDEX_COLUMNS <= V2_NOTE_COLUMNS && V2_NOTE_COLUMNS == V1_NOTE_COLUMNS + {"title_lookup_key"}
    ensures {"workspace_id", "id", "title"} <= V1_NOTE_COLUMNS
  {
  }

  /** What the first `n` statements have seen to. */
  ghost predicate Prepared(d: Db, n: nat) {
    Indexable(d) && (n >= 2 ==> "notes" in d.tables) && (n >= 4 ==> "links" in d.tables) && (n >= 7 ==> "fts_mapping" in d.tables)
  }

  lemma OneRuns(d: Db, n: nat)
    requires n < |SCHEMA| && Prepared(d, n)
    ensures Create(d, SCHEMA[n]).Some? && Prepared(Create(d, SCHEMA[n]).value, n + 1)
  {
    NoteColumns();
  }

  /** The batch's tables and indexes in order. */
  lemma {:induction false} RunsUpTo(db: Db, n: nat)
    requires n <= |SCHEMA| && Indexable(db)
    ensures CreateAll(db, SCHEMA[..n]).Some? && Prepared(CreateAll(db, SCHEMA[..n]).value, n)
    decreases n
  {
    hide Indexable, Create, SCHEMA;
    if n > 0 {
      RunsUpTo(db, n - 1);
      assert SCHEMA[..n][..n - 1] == SCHEMA[..n - 1] && SCHEMA[..n][n - 1] == SCHEMA[n - 1];
      hide Prepared;
      OneRuns(CreateAll(db, SCHEMA[..n - 1]).value, n - 1);
    }
  }

  /** A batch creates no index it does not name. */
  lemma {:induction false} OnlyNamed(db: Db, ddl: seq<Ddl>, index: string)
    requires CreateAll(db, ddl).Some? && forall i :: 0 <= i < |ddl| && ddl[i].CreateIndex? ==> ddl[i].name != index
    ensures index in CreateAll(db, ddl).value.indexes ==> index in db.indexes
    decreases |ddl|
  {
    if ddl != [] { OnlyNamed(db, ddl[..|ddl| - 1], index); }
  }

  /** A statement of a batch that ran did what it needs: its index was there, or its table served. */
  lemma ServedIfRun(db: Db, ddl: seq<Ddl>, n: nat)
    requires n < |ddl| && ddl[n].CreateIndex? && CreateAll(db, ddl).Some?
    requires forall i :: 0 <= i < n && ddl[i].CreateIndex? ==> ddl[i].name != ddl[n].name
    ensures Served(db, ddl[n].name, ddl[n].table, ddl[n].columns)
  {
    if CreateAll(db, ddl[..n + 1]).None? { StoppedShort(db, ddl, n + 1); }
    if CreateAll(db, ddl[..n]).None? { StoppedShort(db, ddl, n); }
    assert ddl[..n + 1][..n] == ddl[..n] && ddl[..n + 1][n] == ddl[n];
    OnlyNamed(db, ddl[..n], ddl[n].name);
    CreateAdds(db, ddl[..n]);
    hide CreateAll;
  }

  /** The whole schema can be applied exactly when its indexes can. */
  lemma SchemaRuns(db: Db)
    ensures CreateAll(db, SCHEMA).Some? <==> Indexable(db)
  {
    if Indexable(db) {
      RunsUpTo(db, |SCHEMA|);
      assert SCHEMA[..|SCHEMA|] == SCHEMA;
    }
    if CreateAll(db, SCHEMA).Some? {
      hide CreateAll, Served;
      ServedIfRun(db, SCHEMA, 2);
      ServedIfRun(db, SCHEMA, 4);
      ServedIfRun(db, SCHEMA, 7);
    }
  }
}
