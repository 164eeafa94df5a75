/** The index's writers as they run: statement after statement on one connection, any of which may
    fail, inside a transaction of their own or a caller's. */
module IndexConnection {
  import opened Text
  import opened SlashPaths
  import opened IndexTables
  import opened IndexViews
  import opened IndexRuns

  datatype Outcome = Unchanged | Updated | NotFound | Failed

  lemma {:induction false} PrefixesStep(segments: seq<string>, i: nat)
    requires i < |segments|
    ensures NonEmpty(segments[..i + 1]) == if segments[i] == "" then NonEmpty(segments[..i]) else NonEmpty(segments[..i]) + [segments[i]]
    ensures segments[i] != "" ==>
              var before := Prefixes(NonEmpty(segments[..i]));
              Prefixes(NonEmpty(segments[..i + 1])) == before + [if before == [] then segments[i] else before[|before| - 1] + "/" + segments[i]]
  {
    assert segments[..i + 1][..i] == segments[..i];
    var kept := NonEmpty(segments[..i]);
    assert (kept + [segments[i]])[..|kept|] == kept;
  }

  lemma PrefixesNone(segments: seq<string>)
    ensures Prefixes(NonEmpty(segments[..0])) == []
  {
  }

  lemma RecordNone(t: Tables, ws: string)
    ensures DirectoriesRecorded(t, ws, []) == t
  {
  }

  lemma RecordOneMore(t: Tables, ws: string, paths: seq<string>, p: string)
    ensures DirectoriesRecorded(t, ws, paths + [p]) ==
            DirectoriesRecorded(t, ws, paths).(directories := DirectoriesRecorded(t, ws, paths).directories + {Key(ws, p)})
  {
  }

  class Connection {
    var tables: Tables
    /** What a rollback restores, while a transaction is open. */
    var saved: Option<Tables>
    /** How many more statements succeed before one fails, if one does. */
    var faults: Option<nat>

    constructor (tables: Tables, faults: Option<nat>)
      ensures this.tables == tables && saved == None && this.faults == faults
    {
      this.tables := tables;
      saved := None;
      this.faults := faults;
    }

    method Statement() returns (ok: bool)
      modifies this`faults
      ensures old(faults).None? ==> ok && faults.None?
    {
      if faults.None? { return true; }
      if faults.value == 0 {
        faults := None;
        return false;
      }
      faults := Some(faults.value - 1);
      return true;
    }

    /** A row id no full-text row has. */
    method FreshRowid() returns (r: nat)
      ensures r !in tables.fts
    {
      r := 0;
      ghost var left := tables.fts.Keys;
      while r in tables.fts
        invariant forall x :: x in tables.fts.Keys && x >= r ==> x in left
        decreases |left|
      {
        left := left - {r};
        r := r + 1;
      }
    }

    method PurgeNoteText(ws: string, id: string) returns (ok: bool)
      modifies this`tables, this`faults
      ensures tables == if ok then TextPurged(old(tables), Key(ws, id)) else old(tables)
      ensures old(faults).None? ==> ok && faults.None?
    {
      ok := Statement();
      if !ok { return; }
      var k := Key(ws, id);
      if k in tables.mapping {
        tables := tables.(fts := tables.fts - {tables.mapping[k]});
      }
    }

    /** `remove_note_rows`: the text first, through the mapping, then the note. */
    method RemoveNoteRows(ws: string, id: string) returns (ok: bool)
      modifies this`tables, this`faults
      ensures ok ==> tables == NoteRemoved(old(tables), Key(ws, id))
      ensures old(faults).None? ==> ok && faults.None?
    {
      ok := PurgeNoteText(ws, id);
      if !ok { return; }
      ok := Statement();
      if !ok { return; }
      tables := NoteDeleted(tables, Key(ws, id));
    }

    method InsertLinks(k: Key, edges: seq<LinkEdge>) returns (ok: bool)
      modifies this`tables, this`faults
      ensures ok ==> tables == old(tables).(links := LinksAdded(old(tables).links, k, edges))
      ensures old(faults).None? ==> ok && faults.None?
    {
      for i := 0 to |edges|
        invariant tables == old(tables).(links := LinksAdded(old(tables).links, k, edges[..i]))
        invariant old(faults).None? ==> faults.None?
      {
        assert edges[..i + 1][..i] == edges[..i];
        ok := Statement();
        if !ok { return; }
        var l := LinkKey(k.ws, k.id, edges[i].target);
        if l !in tables.links {
          tables := tables.(links := tables.links[l := edges[i].title]);
        }
      }
      assert edges[..|edges|] == edges;
      return true;
    }

    /** `insert_note_rows`: fails on a note that has rows already and without the workspace. */
    method InsertNoteRows(ws: string, note: IndexedNote) returns (ok: bool, ghost rowid: nat)
      modifies this`tables, this`faults
      ensures ok ==> ws in old(tables).workspaces && Key(ws, note.id) !in old(tables).notes && rowid !in old(tables).fts
      ensures ok ==> tables == NoteInserted(old(tables), ws, note, rowid)
      ensures old(faults).None? ==> faults.None?
      ensures old(faults).None? && Linked(old(tables)) && ws in old(tables).workspaces && Key(ws, note.id) !in old(tables).notes ==> ok
    {
      hide LinksAdded;
      var k := Key(ws, note.id);
      ok := Statement();
      if !ok || ws !in tables.workspaces || k in tables.notes { return false, 0; }
      tables := tables.(notes := tables.notes[k := RowOf(note)]);
      ok := Statement();
      if !ok { return false, 0; }
      var r := FreshRowid();
      tables := tables.(fts := tables.fts[r := TextOf(note)]);
      ok := Statement();
      if !ok || k in tables.mapping { return false, 0; }
      tables := tables.(mapping := tables.mapping[k := r]);
      ok := InsertLinks(k, note.links);
      rowid := r;
    }

    /** `record_directories`: a row for the directory and every ancestor that has none yet. */
    method RecordDirectories(ws: string, directory: string) returns (ok: bool)
      modifies this`tables, this`faults
      ensures ok ==> tables == DirectoriesRecorded(old(tables), ws, Recorded(directory))
      ensures old(faults).None? ==> faults.None? && (ws in old(tables).workspaces ==> ok)
    {
      hide DirectoriesRecorded, NonEmpty, Prefixes, Split;
      if directory == "" {
        RecordNone(tables, ws);
        return true;
      }
      var segments := Split(directory);
      var ancestor := "";
      ghost var done: seq<string> := [];
      RecordNone(tables, ws);
      PrefixesNone(segments);
      for i := 0 to |segments|
        invariant done == Prefixes(NonEmpty(segments[..i])) && tables == DirectoriesRecorded(old(tables), ws, done)
        invariant if done == [] then ancestor == "" else ancestor == done[|done| - 1] && ancestor != ""
        invariant old(faults).None? ==> faults.None?
        invariant tables.workspaces == old(tables).workspaces
      {
        PrefixesStep(segments, i);
        if segments[i] != "" {
          ancestor := if ancestor == "" then segments[i] else ancestor + "/" + segments[i];
          ok := Statement();
          if !ok || ws !in tables.workspaces { return false; }
          RecordOneMore(old(tables), ws, done, ancestor);
          tables := tables.(directories := tables.directories + {Key(ws, ancestor)});
          done := done + [ancestor];
        }
      }
      assert segments[..|segments|] == segments;
      return true;
    }

    /** Begins a transaction unless one is open; `owned` says whether it did. */
    method Begin() returns (ok: bool, owned: bool)
      modifies this`saved, this`faults
      ensures owned <==> old(saved).None? && ok
      ensures saved == if owned then Some(tables) else old(saved)
      ensures old(saved).Some? ==> ok
      ensures old(faults).None? ==> ok && faults.None?
    {
      if saved.Some? { return true, false; }
      ok := Statement();
      if !ok { return false, false; }
      saved := Some(tables);
      owned := true;
    }

    /** Commits an owned transaction that went well and rolls back one that did not. */
    method End(owned: bool, went: bool) returns (ok: bool)
      requires owned ==> saved.Some?
      modifies this`tables, this`saved, this`faults
      ensures ok ==> went && tables == old(tables)
      ensures owned ==> saved == None && (!ok ==> Some(tables) == old(saved))
      ensures !owned ==> ok == went && tables == old(tables) && saved == old(saved)
      ensures old(faults).None? ==> faults.None? && ok == went
    {
      ok := went;
      if !owned { return; }
      if ok { ok := Statement(); }
      if !ok { tables := saved.value; }
      saved := None;
    }

    /** `write_note_rows_deferring_analyze`. */
    method WriteNoteRows(ws: string, note: IndexedNote) returns (ok: bool, ghost rowid: nat)
      modifies this
      ensures saved == old(saved)
      ensures ok ==> ws in old(tables).workspaces && rowid !in NoteRemoved(old(tables), Key(ws, note.id)).fts
                     && tables == Rewritten(old(tables), ws, note, rowid)
      ensures !ok && old(saved).None? ==> tables == old(tables)
      ensures old(faults).None? && Linked(old(tables)) && ws in old(tables).workspaces ==> ok
    {
      hide NoteRemoved, NoteInserted, Recorded, Linked;
      rowid := 0;
      var begun, owned := Begin();
      if !begun { return false, 0; }
      if Linked(tables) { RemoveLinked(tables, Key(ws, note.id)); }
      ghost var was := tables;
      var went := RemoveNoteRows(ws, note.id);
      RemoveWorkspaces(was, Key(ws, note.id));
      if went {
        went := RecordDirectories(ws, ContainingDirectory(note.id));
        if went {
          if Linked(was) && ws in was.workspaces {
            RecordLinked(NoteRemoved(was, Key(ws, note.id)), ws, Recorded(ContainingDirectory(note.id)));
          }
          went, rowid := InsertNoteRows(ws, note);
        }
      }
      ok := End(owned, went);
    }

    method InsertAll(ws: string, notes: seq<IndexedNote>) returns (ok: bool, indexed: nat, ghost rowids: seq<nat>)
      modifies this`tables, this`faults
      ensures ok ==> |rowids| == |notes| && FreshRowids(old(tables).fts.Keys, rowids) && indexed == |notes|
      ensures ok ==> tables == NotesInserted(old(tables), ws, notes, rowids)
      ensures ok && notes != [] ==> ws in old(tables).workspaces
      ensures old(faults).None? ==> faults.None?
      ensures (old(faults).None? && Linked(old(tables)) && ws in old(tables).workspaces && DistinctIds(notes)
               && forall k :: k in old(tables).notes ==> k.ws != ws) ==> ok
    {
      hide Linked, NoteInserted;
      rowids := [];
      indexed := 0;
      while indexed < |notes|
        invariant indexed <= |notes| && |rowids| == indexed && FreshRowids(old(tables).fts.Keys, rowids)
        invariant tables == NotesInserted(old(tables), ws, notes[..indexed], rowids)
        invariant indexed > 0 ==> ws in old(tables).workspaces
        invariant old(faults).None? ==> faults.None?
      {
        ghost var n := indexed;
        assert notes[..n + 1][..n] == notes[..n];
        InsertAllKeys(old(tables), ws, notes[..n], rowids);
        if Linked(old(tables)) && ws in old(tables).workspaces && DistinctIds(notes) && (forall k :: k in old(tables).notes ==> k.ws != ws) {
          InsertAllLinked(old(tables), ws, notes[..n], rowids);
        }
        ghost var r;
        ok, r := InsertNoteRows(ws, notes[indexed]);
        if !ok { return; }
        assert (rowids + [r])[..n] == rowids;
        rowids := rowids + [r];
        indexed := indexed + 1;
      }
      assert notes[..|notes|] == notes;
      ok := true;
    }

    method InsertDirectories(ws: string, paths: seq<string>) returns (ok: bool)
      modifies this`tables, this`faults
      ensures ok ==> tables == DirectoriesRecorded(old(tables), ws, paths) && (paths != [] ==> ws in old(tables).workspaces)
      ensures old(faults).None? ==> faults.None? && (ws in old(tables).workspaces ==> ok)
    {
      for i := 0 to |paths|
        invariant tables == DirectoriesRecorded(old(tables), ws, paths[..i]) && (i > 0 ==> ws in old(tables).workspaces)
        invariant old(faults).None? ==> faults.None?
      {
        assert paths[..i + 1] == paths[..i] + [paths[i]];
        ok := Statement();
        if !ok || ws !in tables.workspaces { return false; }
        tables := tables.(directories := tables.directories + {Key(ws, paths[i])});
      }
      assert paths[..|paths|] == paths;
      return true;
    }

    /** The rebuild's deletions, full-text rows first. */
    method ClearWorkspace(ws: string) returns (ok: bool)
      modifies this`tables, this`faults
      ensures ok ==> tables == Cleared(old(tables), ws)
      ensures old(faults).None? ==> ok && faults.None?
    {
      ok := Statement();
      if !ok { return; }
      tables := WorkspaceTextPurged(tables, ws);
      ok := Statement();
      if !ok { return; }
      tables := NotesDeleted(tables, ws);
      ok := Statement();
      if !ok { return; }
      tables := DirectoriesDeleted(tables, ws);
    }

    /** `write_scanned_bundle`, without the statistics refresh that follows the commit. */
    method WriteScannedBundle(ws: string, scanned: ScannedBundle) returns (ok: bool, indexed: nat, ghost rowids: seq<nat>)
      modifies this
      ensures saved == old(saved)
      ensures ok ==> |rowids| == |scanned.notes| && FreshRowids(Cleared(old(tables), ws).fts.Keys, rowids)
                     && tables == Rebuilt(old(tables), ws, scanned, rowids) && indexed == |scanned.notes|
      ensures !ok && old(saved).None? ==> tables == old(tables)
      ensures old(faults).None? && Linked(old(tables)) && ws in old(tables).workspaces && DistinctIds(scanned.notes) ==> ok
    {
      hide Cleared, Linked, FreshRowids, NotesInserted;
      indexed, rowids := 0, [];
      var begun, owned := Begin();
      if !begun { return false, 0, []; }
      ghost var was := tables;
      var went := ClearWorkspace(ws);
      ClearWorkspaces(was, ws);
      if Linked(was) { ClearLinked(was, ws); }
      if went {
        went := InsertDirectories(ws, scanned.directories);
        if went {
          if Linked(was) && ws in was.workspaces { RecordLinked(Cleared(was, ws), ws, scanned.directories); }
          went, indexed, rowids := InsertAll(ws, scanned.notes);
        }
      }
      ok := End(owned, went);
    }

    /** `index_note`: brings one note's rows in line with its file. */
    method IndexNote(ws: string, id: string, rd: Reading, files: map<string, Raw>) returns (outcome: Outcome, ghost rowid: nat)
      modifies this
      ensures saved == old(saved)
      ensures outcome == NotFound <==> ws !in old(tables).workspaces || id !in files
      ensures outcome == Unchanged || outcome == Updated ==>
                id in files && ws in old(tables).workspaces && IndexedFrom(rd, old(tables), tables, ws, id, files[id], rowid)
      ensures outcome == Unchanged || outcome == NotFound ==> tables == old(tables)
      ensures outcome != NotFound ==> (outcome == Unchanged <==> Current(rd, old(tables), Key(ws, id), files[id]))
      ensures outcome == Failed && old(saved).None? ==> tables == old(tables)
      ensures old(faults).None? && Linked(old(tables)) ==> outcome != Failed
    {
      hide Linked, Rewritten, NoteRemoved;
      rowid := 0;
      if ws !in tables.workspaces || id !in files { return NotFound, 0; }
      var k := Key(ws, id);
      var hash := rd.hash(files[id].bytes);
      if k in tables.notes && tables.notes[k].contentHash == hash { return Unchanged, 0; }
      var ok;
      ok, rowid := WriteNoteRows(ws, Derive(rd, id, files[id]));
      outcome := if ok then Updated else Failed;
    }
  }
}
