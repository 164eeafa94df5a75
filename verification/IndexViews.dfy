/** What the index says of one workspace, apart from full-text row ids: the incremental path and
    the rebuild arrive at the same thing. */
module IndexViews {
  import opened Text
  import opened SlashPaths
  import opened IndexTables

  // ----- what a bundle contributes

  function EdgeTitle(edges: seq<LinkEdge>, target: string): Option<string> {
    if edges == [] then None
    else
      var before := EdgeTitle(edges[..|edges| - 1], target);
      if before.Some? then before
      else if edges[|edges| - 1].target == target then Some(edges[|edges| - 1].title)
      else None
  }

  function LinkAt(links: map<LinkKey, string>, l: LinkKey): Option<string> {
    if l in links then Some(links[l]) else None
  }

  /** The row a note should have, column by column. */
  predicate RowSays(row: NoteRow, note: IndexedNote) {
    && row.path == note.id + ".md" && row.title == note.title && row.titleKey == note.titleKey
    && row.lastModified == note.lastModified && row.contentHash == note.contentHash && row.conformant == note.conformant
  }

  /** What a search should find: the title and the text of the note. */
  predicate TextSays(row: FtsRow, note: IndexedNote) {
    row.title == note.title && row.content == note.text
  }

  ghost predicate NotesShown(t: Tables, ws: string, content: map<string, IndexedNote>) {
    && (forall id :: Key(ws, id) in t.notes <==> id in content)
    && (forall id :: id in content ==> RowSays(t.notes[Key(ws, id)], content[id]))
  }

  ghost predicate TextsShown(t: Tables, ws: string, content: map<string, IndexedNote>) {
    forall id :: id in content ==>
      Key(ws, id) in t.mapping && t.mapping[Key(ws, id)] in t.fts && TextSays(t.fts[t.mapping[Key(ws, id)]], content[id])
  }

  ghost predicate LinksShown(t: Tables, ws: string, content: map<string, IndexedNote>) {
    forall source, target ::
      LinkAt(t.links, LinkKey(ws, source, target)) == if source in content then EdgeTitle(content[source].links, target) else None
  }

  ghost predicate DirectoriesShown(t: Tables, ws: string, dirs: set<string>) {
    forall id :: Key(ws, id) in t.directories <==> id in dirs
  }

  /** The workspace's rows are exactly those of these notes and directories. */
  ghost predicate Shows(t: Tables, ws: string, content: map<string, IndexedNote>, dirs: set<string>) {
    NotesShown(t, ws, content) && TextsShown(t, ws, content) && LinksShown(t, ws, content) && DirectoriesShown(t, ws, dirs)
  }

  /** The row, but for the modification time of a note whose time is stale. */
  predicate SameRow(a: NoteRow, b: NoteRow, stale: bool) {
    a == if stale then b.(lastModified := a.lastModified) else b
  }

  /** Two indexes with the same rows in a workspace, up to full-text row ids, and up to the
      modification times of the notes in `stale`. */
  ghost predicate SameIndex(a: Tables, b: Tables, ws: string, stale: set<string>) {
    && (forall id :: Key(ws, id) in a.notes <==> Key(ws, id) in b.notes)
    && (forall id :: Key(ws, id) in a.notes && Key(ws, id) in b.notes ==>
          SameRow(a.notes[Key(ws, id)], b.notes[Key(ws, id)], id in stale))
    && (forall id :: Key(ws, id) in a.notes ==>
          Key(ws, id) in a.mapping && a.mapping[Key(ws, id)] in a.fts
          && Key(ws, id) in b.mapping && b.mapping[Key(ws, id)] in b.fts
          && a.fts[a.mapping[Key(ws, id)]] == b.fts[b.mapping[Key(ws, id)]])
    && (forall source, target :: LinkAt(a.links, LinkKey(ws, source, target)) == LinkAt(b.links, LinkKey(ws, source, target)))
    && (forall id :: Key(ws, id) in a.directories <==> Key(ws, id) in b.directories)
  }

  /** Two contents that differ in the modification times of some notes only. */
  ghost predicate SameContent(a: map<string, IndexedNote>, b: map<string, IndexedNote>, stale: set<string>) {
    a.Keys == b.Keys && forall id :: id in a ==> a[id] == if id in stale then b[id].(lastModified := a[id].lastModified) else b[id]
  }

  /** Indexes that show the same are the same. */
  lemma ShownTwiceIsSame(a: Tables, b: Tables, ws: string, content: map<string, IndexedNote>, content': map<string, IndexedNote>,
                         dirs: set<string>, stale: set<string>)
    requires Shows(a, ws, content, dirs) && Shows(b, ws, content', dirs) && SameContent(content, content', stale)
    ensures SameIndex(a, b, ws, stale)
  {
    hide EdgeTitle;
    forall id ensures id in content <==> id in content' { assert content.Keys == content'.Keys; }
    forall source, target ensures LinkAt(a.links, LinkKey(ws, source, target)) == LinkAt(b.links, LinkKey(ws, source, target)) {
      assert LinkAt(a.links, LinkKey(ws, source, target)) == if source in content then EdgeTitle(content[source].links, target) else None;
    }
  }

  // ----- links

  lemma {:induction false} LinksAddedTitle(links: map<LinkKey, string>, k: Key, edges: seq<LinkEdge>, l: LinkKey)
    ensures LinkAt(LinksAdded(links, k, edges), l) ==
            if l in links then Some(links[l]) else if SourceOf(l) == k then EdgeTitle(edges, l.target) else None
    decreases |edges|
  {
    if edges != [] { LinksAddedTitle(links, k, edges[..|edges| - 1], l); }
  }

  // ----- one note at a time

  lemma RemoveShows(t: Tables, ws: string, id: string, content: map<string, IndexedNote>, dirs: set<string>)
    requires Linked(t) && Shows(t, ws, content, dirs)
    ensures Shows(NoteRemoved(t, Key(ws, id)), ws, content - {id}, dirs)
  {
    hide Linked, NotesShown, TextsShown, LinksShown, DirectoriesShown, NoteRemoved;
    RemoveNotes(t, ws, id, content, dirs);
    RemoveTexts(t, ws, id, content);
    RemoveLinks(t, ws, id, content);
  }

  lemma RemoveNotes(t: Tables, ws: string, id: string, content: map<string, IndexedNote>, dirs: set<string>)
    requires NotesShown(t, ws, content) && DirectoriesShown(t, ws, dirs)
    ensures NotesShown(NoteRemoved(t, Key(ws, id)), ws, content - {id}) && DirectoriesShown(NoteRemoved(t, Key(ws, id)), ws, dirs)
  {
    hide RowSays;
  }

  lemma RemoveLinks(t: Tables, ws: string, id: string, content: map<string, IndexedNote>)
    requires LinksShown(t, ws, content)
    ensures LinksShown(NoteRemoved(t, Key(ws, id)), ws, content - {id})
  {
    hide EdgeTitle;
    forall source, target
      ensures LinkAt(NoteRemoved(t, Key(ws, id)).links, LinkKey(ws, source, target)) ==
              if source in content - {id} then EdgeTitle((content - {id})[source].links, target) else None
    {
      assert LinkAt(t.links, LinkKey(ws, source, target)) == if source in content then EdgeTitle(content[source].links, target) else None;
    }
  }

  lemma RemoveTexts(t: Tables, ws: string, id: string, content: map<string, IndexedNote>)
    requires Linked(t) && TextsShown(t, ws, content)
    ensures TextsShown(NoteRemoved(t, Key(ws, id)), ws, content - {id})
  {
    hide TextSays;
  }

  lemma RecordShows(t: Tables, ws: string, paths: seq<string>, content: map<string, IndexedNote>, dirs: set<string>)
    requires Shows(t, ws, content, dirs)
    ensures Shows(DirectoriesRecorded(t, ws, paths), ws, content, dirs + set p | p in paths)
  {
    hide NotesShown, TextsShown, LinksShown;
    var t' := DirectoriesRecorded(t, ws, paths);
    assert NotesShown(t', ws, content) by { SameNotes(t, t', ws, content); }
    assert TextsShown(t', ws, content) && LinksShown(t', ws, content) by { SameNotes(t, t', ws, content); }
  }

  lemma SameNotes(t: Tables, t': Tables, ws: string, content: map<string, IndexedNote>)
    requires t'.notes == t.notes && t'.fts == t.fts && t'.mapping == t.mapping && t'.links == t.links
    requires NotesShown(t, ws, content) && TextsShown(t, ws, content) && LinksShown(t, ws, content)
    ensures NotesShown(t', ws, content) && TextsShown(t', ws, content) && LinksShown(t', ws, content)
  {
    hide EdgeTitle;
  }

  lemma InsertShows(t: Tables, ws: string, note: IndexedNote, rowid: nat, content: map<string, IndexedNote>, dirs: set<string>)
    requires Linked(t) && Shows(t, ws, content, dirs) && note.id !in content && rowid !in t.fts
    ensures Shows(NoteInserted(t, ws, note, rowid), ws, content[note.id := note], dirs)
  {
    var t', content', k := NoteInserted(t, ws, note, rowid), content[note.id := note], Key(ws, note.id);
    InsertNotes(t, ws, note, rowid, content);
    hide LinksAdded, EdgeTitle, Bijection, NotesShown, TextsShown, RowOf, TextOf;
    assert TextsShown(t', ws, content') by { InsertTexts(t, ws, note, rowid, content); }
    forall source, target
      ensures LinkAt(t'.links, LinkKey(ws, source, target)) ==
              if source in content' then EdgeTitle(content'[source].links, target) else None
    {
      LinksAddedTitle(t.links, k, note.links, LinkKey(ws, source, target));
      assert LinkAt(t.links, LinkKey(ws, source, target)) == if source in content then EdgeTitle(content[source].links, target) else None;
    }
  }

  lemma InsertNotes(t: Tables, ws: string, note: IndexedNote, rowid: nat, content: map<string, IndexedNote>)
    requires NotesShown(t, ws, content)
    ensures NotesShown(NoteInserted(t, ws, note, rowid), ws, content[note.id := note])
  {
    hide LinksAdded;
  }

  lemma InsertTexts(t: Tables, ws: string, note: IndexedNote, rowid: nat, content: map<string, IndexedNote>)
    requires TextsShown(t, ws, content) && note.id !in content && rowid !in t.fts
    ensures TextsShown(NoteInserted(t, ws, note, rowid), ws, content[note.id := note])
  {
    hide LinksAdded;
  }

  /** Rewriting one note's rows replaces that note and makes sure of the directories it lies in. */
  lemma RewriteShows(t: Tables, ws: string, note: IndexedNote, rowid: nat, content: map<string, IndexedNote>, dirs: set<string>)
    requires Linked(t) && Shows(t, ws, content, dirs) && ws in t.workspaces && rowid !in NoteRemoved(t, Key(ws, note.id)).fts
    ensures Shows(Rewritten(t, ws, note, rowid), ws, content[note.id := note],
                  dirs + set p | p in Recorded(ContainingDirectory(note.id)))
  {
    hide Shows, Linked, NoteInserted, NoteRemoved, Recorded;
    var paths, removed := Recorded(ContainingDirectory(note.id)), NoteRemoved(t, Key(ws, note.id));
    RemoveShows(t, ws, note.id, content, dirs);
    RemoveLinked(t, Key(ws, note.id));
    RecordShows(removed, ws, paths, content - {note.id}, dirs);
    RecordLinked(removed, ws, paths) by { RemoveWorkspaces(t, Key(ws, note.id)); }
    InsertShows(DirectoriesRecorded(removed, ws, paths), ws, note, rowid, content - {note.id}, dirs + set p | p in paths);
    assert (content - {note.id})[note.id := note] == content[note.id := note];
  }

  lemma RemoveWorkspaces(t: Tables, k: Key)
    ensures NoteRemoved(t, k).workspaces == t.workspaces
  {
  }

  // ----- the whole bundle

  /** The scan lists every note of the bundle once, and its directories. */
  ghost predicate Scans(scanned: ScannedBundle, content: map<string, IndexedNote>, dirs: set<string>) {
    && DistinctIds(scanned.notes)
    && (forall i :: 0 <= i < |scanned.notes| ==> scanned.notes[i].id in content && content[scanned.notes[i].id] == scanned.notes[i])
    && (forall id :: id in content ==> exists i :: 0 <= i < |scanned.notes| && scanned.notes[i].id == id)
    && (forall d :: d in scanned.directories <==> d in dirs)
  }

  function ContentOf(notes: seq<IndexedNote>): map<string, IndexedNote> {
    if notes == [] then map[] else ContentOf(notes[..|notes| - 1])[notes[|notes| - 1].id := notes[|notes| - 1]]
  }

  lemma {:induction false} ContentKeys(notes: seq<IndexedNote>)
    requires DistinctIds(notes)
    ensures forall id :: id in ContentOf(notes) <==> exists i :: 0 <= i < |notes| && notes[i].id == id
    ensures forall i :: 0 <= i < |notes| ==> notes[i].id in ContentOf(notes) && ContentOf(notes)[notes[i].id] == notes[i]
    decreases |notes|
  {
    hide ContentOf;
    ContentSteps(notes);
    if notes != [] {
      var n := |notes| - 1;
      var init := notes[..n];
      ContentKeys(init);
      ContentGrows(init, notes[n], notes, ContentOf(init), ContentOf(notes));
    }
  }

  lemma ContentSteps(notes: seq<IndexedNote>)
    ensures ContentOf(notes) == if notes == [] then map[] else ContentOf(notes[..|notes| - 1])[notes[|notes| - 1].id := notes[|notes| - 1]]
  {
  }

  lemma ContentGrows(init: seq<IndexedNote>, last: IndexedNote, notes: seq<IndexedNote>,
                     content: map<string, IndexedNote>, now: map<string, IndexedNote>)
    requires notes == init + [last] && DistinctIds(notes) && now == content[last.id := last]
    requires forall id :: id in content <==> exists i :: 0 <= i < |init| && init[i].id == id
    requires forall i :: 0 <= i < |init| ==> init[i].id in content && content[init[i].id] == init[i]
    ensures forall id :: id in now <==> exists i :: 0 <= i < |notes| && notes[i].id == id
    ensures forall i :: 0 <= i < |notes| ==> notes[i].id in now && now[notes[i].id] == notes[i]
  {
    var n := |init|;
    forall i | 0 <= i < |notes| ensures notes[i].id in now && now[notes[i].id] == notes[i] {
      if i < n { assert init[i] == notes[i] && notes[i].id != notes[n].id; }
    }
    forall id | id in now ensures exists i :: 0 <= i < |notes| && notes[i].id == id {
      if id == last.id {
        assert notes[n].id == id;
      } else {
        var i :| 0 <= i < n && init[i].id == id;
        assert notes[i].id == id;
      }
    }
  }

  lemma ScannedContent(scanned: ScannedBundle, content: map<string, IndexedNote>, dirs: set<string>)
    requires Scans(scanned, content, dirs)
    ensures ContentOf(scanned.notes) == content
  {
    ContentKeys(scanned.notes);
    forall id | id in content ensures id in ContentOf(scanned.notes) && ContentOf(scanned.notes)[id] == content[id] {
      var i :| 0 <= i < |scanned.notes| && scanned.notes[i].id == id;
    }
  }

  lemma ClearShows(t: Tables, ws: string)
    requires Linked(t)
    ensures Shows(Cleared(t, ws), ws, map[], {})
  {
    hide Bijection;
  }

  lemma {:induction false} InsertAllShows(t: Tables, ws: string, notes: seq<IndexedNote>, rowids: seq<nat>, dirs: set<string>)
    requires Linked(t) && ws in t.workspaces && Shows(t, ws, map[], dirs)
    requires |rowids| == |notes| && DistinctIds(notes) && FreshRowids(t.fts.Keys, rowids)
    ensures Shows(NotesInserted(t, ws, notes, rowids), ws, ContentOf(notes), dirs)
    decreases |notes|
  {
    hide Shows, Linked, NoteInserted;
    if notes != [] {
      var n := |notes| - 1;
      FreshLast(t.fts.Keys, rowids);
      InsertAllShows(t, ws, notes[..n], rowids[..n], dirs);
      NoneHere(t, ws, dirs);
      InsertAllLinked(t, ws, notes[..n], rowids[..n]);
      InsertAllKeys(t, ws, notes[..n], rowids[..n]);
      ContentKeys(notes[..n]);
      InsertShows(NotesInserted(t, ws, notes[..n], rowids[..n]), ws, notes[n], rowids[n], ContentOf(notes[..n]), dirs);
    }
  }

  lemma NoneHere(t: Tables, ws: string, dirs: set<string>)
    requires Shows(t, ws, map[], dirs)
    ensures forall k :: k in t.notes ==> k.ws != ws
  {
    forall k | k in t.notes ensures k.ws != ws {
      assert k == Key(k.ws, k.id);
    }
  }

  /** A rebuild leaves exactly the scanned bundle's rows, whatever was there before. */
  lemma RebuildShows(t: Tables, ws: string, scanned: ScannedBundle, rowids: seq<nat>, content: map<string, IndexedNote>, dirs: set<string>)
    requires Linked(t) && ws in t.workspaces && Scans(scanned, content, dirs)
    requires |rowids| == |scanned.notes| && FreshRowids(Cleared(t, ws).fts.Keys, rowids)
    ensures Shows(Rebuilt(t, ws, scanned, rowids), ws, content, dirs)
  {
    hide Shows, Linked, Cleared, NotesInserted;
    ScannedContent(scanned, content, dirs);
    ClearShows(t, ws);
    ClearLinked(t, ws);
    assert Cleared(t, ws).workspaces == t.workspaces by { ClearWorkspaces(t, ws); }
    RecordShows(Cleared(t, ws), ws, scanned.directories, map[], {});
    RecordLinked(Cleared(t, ws), ws, scanned.directories);
    assert {} + (set p | p in scanned.directories) == dirs;
    InsertAllShows(DirectoriesRecorded(Cleared(t, ws), ws, scanned.directories), ws, scanned.notes, rowids, dirs);
  }

  lemma ClearWorkspaces(t: Tables, ws: string)
    ensures Cleared(t, ws).workspaces == t.workspaces
  {
  }
}
