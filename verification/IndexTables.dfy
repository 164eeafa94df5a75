/** The derived index's tables, what each SQL statement does to them, and what always holds. */
module IndexTables {
  import opened Text
  import opened SlashPaths

  /** Concept ids are unique within a workspace only. */
  datatype Key = Key(ws: string, id: string)

  datatype LinkKey = LinkKey(ws: string, source: string, target: string)

  datatype NoteRow = NoteRow(path: string, title: string, titleKey: string, lastModified: int,
                             contentHash: string, conformant: bool)

  datatype FtsRow = FtsRow(title: string, content: string)

  datatype LinkEdge = LinkEdge(target: string, title: string)

  /** Everything one note contributes, already derived from its file. */
  datatype IndexedNote = IndexedNote(id: string, title: string, titleKey: string, lastModified: int,
                                     contentHash: string, conformant: bool, text: string, links: seq<LinkEdge>)

  datatype ScannedBundle = ScannedBundle(directories: seq<string>, notes: seq<IndexedNote>)

  datatype Tables = Tables(
    workspaces: set<string>,
    notes: map<Key, NoteRow>,
    fts: map<nat, FtsRow>,
    mapping: map<Key, nat>,
    links: map<LinkKey, string>,
    directories: set<Key>)

  function RowOf(note: IndexedNote): NoteRow {
    NoteRow(note.id + ".md", note.title, note.titleKey, note.lastModified, note.contentHash, note.conformant)
  }

  function TextOf(note: IndexedNote): FtsRow {
    FtsRow(note.title, note.text)
  }

  function SourceOf(l: LinkKey): Key {
    Key(l.ws, l.source)
  }

  // ----- statements

  /** Full-text rows go through the mapping, before it disappears with the note. */
  function TextPurged(t: Tables, k: Key): Tables {
    t.(fts := t.fts - (if k in t.mapping then {t.mapping[k]} else {}))
  }

  function WorkspaceTextPurged(t: Tables, ws: string): Tables {
    t.(fts := t.fts - set k | k in t.mapping && k.ws == ws :: t.mapping[k])
  }

  /** Deleting a note cascades to its mapping and its outbound links. */
  function NoteDeleted(t: Tables, k: Key): Tables {
    t.(notes := t.notes - {k},
       mapping := t.mapping - {k},
       links := map l | l in t.links && SourceOf(l) != k :: t.links[l])
  }

  function NotesDeleted(t: Tables, ws: string): Tables {
    t.(notes := map k | k in t.notes && k.ws != ws :: t.notes[k],
       mapping := map k | k in t.mapping && k.ws != ws :: t.mapping[k],
       links := map l | l in t.links && l.ws != ws :: t.links[l])
  }

  function DirectoriesDeleted(t: Tables, ws: string): Tables {
    t.(directories := set k | k in t.directories && k.ws != ws)
  }

  /** `INSERT OR IGNORE`: the first title of an edge stays. */
  function LinkAdded(links: map<LinkKey, string>, l: LinkKey, title: string): map<LinkKey, string> {
    if l in links then links else links[l := title]
  }

  function LinksAdded(links: map<LinkKey, string>, k: Key, edges: seq<LinkEdge>): map<LinkKey, string> {
    if edges == [] then links
    else
      var last := edges[|edges| - 1];
      LinkAdded(LinksAdded(links, k, edges[..|edges| - 1]), LinkKey(k.ws, k.id, last.target), last.title)
  }

  // ----- operations

  function NoteRemoved(t: Tables, k: Key): Tables {
    NoteDeleted(TextPurged(t, k), k)
  }

  function NoteInserted(t: Tables, ws: string, note: IndexedNote, rowid: nat): Tables {
    var k := Key(ws, note.id);
    t.(notes := t.notes[k := RowOf(note)],
       fts := t.fts[rowid := TextOf(note)],
       mapping := t.mapping[k := rowid],
       links := LinksAdded(t.links, k, note.links))
  }

  /** The directories a path lies in, itself included, from the top down; empty segments are
      dropped. */
  function Prefixes(segments: seq<string>): seq<string>
    decreases |segments|
  {
    if segments == [] then []
    else
      var before := Prefixes(segments[..|segments| - 1]);
      var last := segments[|segments| - 1];
      before + [if before == [] then last else before[|before| - 1] + "/" + last]
  }

  function NonEmpty(segments: seq<string>): seq<string> {
    if segments == [] then []
    else
      var before := NonEmpty(segments[..|segments| - 1]);
      if segments[|segments| - 1] == "" then before else before + [segments[|segments| - 1]]
  }

  /** The rows `record_directories` makes sure of. */
  function Recorded(directory: string): seq<string> {
    if directory == "" then [] else Prefixes(NonEmpty(Split(directory)))
  }

  function DirectoriesRecorded(t: Tables, ws: string, paths: seq<string>): Tables {
    t.(directories := t.directories + set p | p in paths :: Key(ws, p))
  }

  /** `rsplit_once('/')`: what precedes the last slash, and what follows it. */
  function ContainingDirectory(id: string): string {
    if '/' !in id then "" else if id[|id| - 1] == '/' then id[..|id| - 1] else ContainingDirectory(id[..|id| - 1])
  }

  function Rewritten(t: Tables, ws: string, note: IndexedNote, rowid: nat): Tables {
    NoteInserted(DirectoriesRecorded(NoteRemoved(t, Key(ws, note.id)), ws, Recorded(ContainingDirectory(note.id))), ws, note, rowid)
  }

  function Cleared(t: Tables, ws: string): Tables {
    DirectoriesDeleted(NotesDeleted(WorkspaceTextPurged(t, ws), ws), ws)
  }

  function NotesInserted(t: Tables, ws: string, notes: seq<IndexedNote>, rowids: seq<nat>): Tables
    requires |rowids| == |notes|
    decreases |notes|
  {
    if notes == [] then t
    else
      var n := |notes| - 1;
      NoteInserted(NotesInserted(t, ws, notes[..n], rowids[..n]), ws, notes[n], rowids[n])
  }

  function Rebuilt(t: Tables, ws: string, scanned: ScannedBundle, rowids: seq<nat>): Tables
    requires |rowids| == |scanned.notes|
  {
    NotesInserted(DirectoriesRecorded(Cleared(t, ws), ws, scanned.directories), ws, scanned.notes, rowids)
  }

  /** Each row id is new when it is taken. */
  ghost predicate FreshRowids(fts: set<nat>, rowids: seq<nat>) {
    && (forall i :: 0 <= i < |rowids| ==> rowids[i] !in fts)
    && (forall i, j :: 0 <= i < j < |rowids| ==> rowids[i] != rowids[j])
  }

  ghost predicate DistinctIds(notes: seq<IndexedNote>) {
    forall i, j :: 0 <= i < j < |notes| ==> notes[i].id != notes[j].id
  }

  // ----- what always holds

  ghost predicate Mapped(mapping: map<Key, nat>, r: nat) {
    exists k :: k in mapping && mapping[k] == r
  }

  /** The mapping is a bijection between notes and full-text rows, which carry the notes' titles. */
  ghost predicate Bijection(notes: map<Key, NoteRow>, mapping: map<Key, nat>, fts: map<nat, FtsRow>) {
    && (forall k :: k in mapping <==> k in notes)
    && (forall k :: k in mapping ==> mapping[k] in fts && fts[mapping[k]].title == notes[k].title)
    && (forall j, k :: j in mapping && k in mapping && mapping[j] == mapping[k] ==> j == k)
    && (forall r :: r in fts ==> Mapped(mapping, r))
  }

  /** Links and rows belong to existing notes and workspaces. */
  ghost predicate Owned(t: Tables) {
    && (forall l :: l in t.links ==> SourceOf(l) in t.notes)
    && (forall k :: k in t.notes ==> k.ws in t.workspaces && t.notes[k].path == k.id + ".md")
    && (forall k :: k in t.directories ==> k.ws in t.workspaces)
  }

  ghost predicate Linked(t: Tables) {
    Bijection(t.notes, t.mapping, t.fts) && Owned(t)
  }

  /** Taking a set of notes out, full-text rows first. */
  lemma BijectionWithout(notes: map<Key, NoteRow>, mapping: map<Key, nat>, fts: map<nat, FtsRow>,
                         notes': map<Key, NoteRow>, mapping': map<Key, nat>, fts': map<nat, FtsRow>, gone: set<Key>)
    requires Bijection(notes, mapping, fts)
    requires notes' == notes - gone && mapping' == mapping - gone
    requires fts' == fts - set k | k in mapping && k in gone :: mapping[k]
    ensures Bijection(notes', mapping', fts')
  {
    forall r | r in fts' ensures Mapped(mapping', r) {
      assert Mapped(mapping, r);
      var k :| k in mapping && mapping[k] == r;
      assert k in mapping';
    }
  }

  lemma RemoveOwned(t: Tables, k: Key)
    requires Owned(t)
    ensures Owned(NoteRemoved(t, k)) && k !in NoteRemoved(t, k).notes
  {
  }

  lemma RemoveLinked(t: Tables, k: Key)
    requires Linked(t)
    ensures Linked(NoteRemoved(t, k)) && k !in NoteRemoved(t, k).notes
  {
    hide Bijection, Owned;
    RemoveOwned(t, k);
    var t' := NoteRemoved(t, k);
    var rows := set j | j in t.mapping && j in {k} :: t.mapping[j];
    OneRow(t.mapping, k);
    assert t'.fts == t.fts - rows;
    BijectionWithout(t.notes, t.mapping, t.fts, t'.notes, t'.mapping, t'.fts, {k});
  }

  lemma OneRow(mapping: map<Key, nat>, k: Key)
    ensures (set j | j in mapping && j in {k} :: mapping[j]) == if k in mapping then {mapping[k]} else {}
  {
    var rows := set j | j in mapping && j in {k} :: mapping[j];
    if k in mapping { assert k in {k} && mapping[k] in rows; }
  }

  lemma {:induction false} LinksAddedAt(links: map<LinkKey, string>, k: Key, edges: seq<LinkEdge>, l: LinkKey)
    ensures l in LinksAdded(links, k, edges) <==> l in links || (SourceOf(l) == k && exists i :: 0 <= i < |edges| && edges[i].target == l.target)
    ensures l in links ==> LinksAdded(links, k, edges)[l] == links[l]
    decreases |edges|
  {
    if edges != [] {
      var init, last := edges[..|edges| - 1], edges[|edges| - 1];
      LinksAddedAt(links, k, init, l);
      assert forall i :: 0 <= i < |init| ==> init[i] == edges[i];
    }
  }

  lemma InsertLinked(t: Tables, ws: string, note: IndexedNote, rowid: nat)
    requires Linked(t) && Key(ws, note.id) !in t.notes && rowid !in t.fts && ws in t.workspaces
    ensures Linked(NoteInserted(t, ws, note, rowid))
  {
    hide LinksAdded, Bijection;
    var t', k := NoteInserted(t, ws, note, rowid), Key(ws, note.id);
    BijectionWith(t.notes, t.mapping, t.fts, k, RowOf(note), TextOf(note), rowid);
    forall l | l in t'.links ensures SourceOf(l) in t'.notes { LinksAddedAt(t.links, k, note.links, l); }
  }

  lemma BijectionWith(notes: map<Key, NoteRow>, mapping: map<Key, nat>, fts: map<nat, FtsRow>, k: Key, row: NoteRow, text: FtsRow, rowid: nat)
    requires Bijection(notes, mapping, fts) && k !in notes && rowid !in fts && text.title == row.title
    ensures Bijection(notes[k := row], mapping[k := rowid], fts[rowid := text])
  {
    var mapping' := mapping[k := rowid];
    forall r | r in fts[rowid := text] ensures Mapped(mapping', r) {
      if r == rowid { assert k in mapping'; }
      else { assert Mapped(mapping, r); var j :| j in mapping && mapping[j] == r; assert j in mapping' && mapping'[j] == r; }
    }
  }

  lemma RecordLinked(t: Tables, ws: string, paths: seq<string>)
    requires Linked(t) && ws in t.workspaces
    ensures Linked(DirectoriesRecorded(t, ws, paths))
  {
  }

  lemma RewriteLinked(t: Tables, ws: string, note: IndexedNote, rowid: nat)
    requires Linked(t) && ws in t.workspaces && rowid !in NoteRemoved(t, Key(ws, note.id)).fts
    ensures Linked(Rewritten(t, ws, note, rowid))
  {
    hide Linked, NoteInserted, Recorded;
    RemoveLinked(t, Key(ws, note.id));
    RecordLinked(NoteRemoved(t, Key(ws, note.id)), ws, Recorded(ContainingDirectory(note.id)));
    InsertLinked(DirectoriesRecorded(NoteRemoved(t, Key(ws, note.id)), ws, Recorded(ContainingDirectory(note.id))), ws, note, rowid);
  }

  lemma ClearOwned(t: Tables, ws: string)
    requires Owned(t)
    ensures Owned(Cleared(t, ws)) && forall k :: k in Cleared(t, ws).notes <==> k in t.notes && k.ws != ws
  {
  }

  lemma ClearLinked(t: Tables, ws: string)
    requires Linked(t)
    ensures Linked(Cleared(t, ws)) && forall k :: k in Cleared(t, ws).notes <==> k in t.notes && k.ws != ws
  {
    hide Bijection, Owned;
    ClearOwned(t, ws);
    var t' := Cleared(t, ws);
    var gone := set k | k in t.notes && k.ws == ws;
    var rows := set k | k in t.mapping && k in gone :: t.mapping[k];
    SameKeys(t);
    assert t'.notes == t.notes - gone && t'.mapping == t.mapping - gone;
    assert rows == (set k | k in t.mapping && k.ws == ws :: t.mapping[k]);
    BijectionWithout(t.notes, t.mapping, t.fts, t'.notes, t'.mapping, t'.fts, gone);
  }

  lemma SameKeys(t: Tables)
    requires Linked(t)
    ensures forall k :: k in t.mapping <==> k in t.notes
  {
  }

  /** Row ids still new after some have been taken. */
  lemma FreshLast(fts: set<nat>, rowids: seq<nat>)
    requires FreshRowids(fts, rowids) && rowids != []
    ensures var n := |rowids| - 1; FreshRowids(fts, rowids[..n]) && rowids[n] !in fts && rowids[n] !in rowids[..n]
  {
  }

  lemma {:induction false} InsertAllKeys(t: Tables, ws: string, notes: seq<IndexedNote>, rowids: seq<nat>)
    requires |rowids| == |notes|
    ensures var t' := NotesInserted(t, ws, notes, rowids);
            t'.workspaces == t.workspaces && t'.directories == t.directories
            && (forall r :: r in t'.fts <==> r in t.fts || r in rowids)
            && forall k: Key :: k in t'.notes <==> k in t.notes || (k.ws == ws && exists i :: 0 <= i < |notes| && notes[i].id == k.id)
    decreases |notes|
  {
    hide LinksAdded;
    if notes != [] {
      var n := |notes| - 1;
      InsertAllKeys(t, ws, notes[..n], rowids[..n]);
      assert rowids == rowids[..n] + [rowids[n]];
      assert forall i :: 0 <= i < n ==> notes[..n][i] == notes[i];
    }
  }

  lemma {:induction false} InsertAllLinked(t: Tables, ws: string, notes: seq<IndexedNote>, rowids: seq<nat>)
    requires Linked(t) && ws in t.workspaces && |rowids| == |notes| && DistinctIds(notes)
    requires FreshRowids(t.fts.Keys, rowids) && forall k :: k in t.notes ==> k.ws != ws
    ensures Linked(NotesInserted(t, ws, notes, rowids))
    decreases |notes|
  {
    hide Linked, NoteInserted, FreshRowids;
    if notes != [] {
      var n := |notes| - 1;
      FreshLast(t.fts.Keys, rowids);
      InsertAllLinked(t, ws, notes[..n], rowids[..n]);
      InsertAllKeys(t, ws, notes[..n], rowids[..n]);
      InsertLinked(NotesInserted(t, ws, notes[..n], rowids[..n]), ws, notes[n], rowids[n]);
    }
  }

  lemma RebuildLinked(t: Tables, ws: string, scanned: ScannedBundle, rowids: seq<nat>)
    requires Linked(t) && ws in t.workspaces && |rowids| == |scanned.notes| && DistinctIds(scanned.notes)
    requires FreshRowids(Cleared(t, ws).fts.Keys, rowids)
    ensures Linked(Rebuilt(t, ws, scanned, rowids))
  {
    hide Linked;
    ClearLinked(t, ws);
    RecordLinked(Cleared(t, ws), ws, scanned.directories);
    InsertAllLinked(DirectoriesRecorded(Cleared(t, ws), ws, scanned.directories), ws, scanned.notes, rowids);
  }

  // ----- workspaces do not see each other

  /** The rows of every other workspace are the same, full-text rows under the same ids. */
  ghost predicate OthersUntouched(t: Tables, t': Tables, ws: string) {
    && (forall k: Key :: k.ws != ws ==> (k in t.notes <==> k in t'.notes) && (k in t.notes && k in t'.notes ==> t'.notes[k] == t.notes[k]))
    && (forall k: Key :: k.ws != ws ==> (k in t.mapping <==> k in t'.mapping) && (k in t.mapping && k in t'.mapping ==> t'.mapping[k] == t.mapping[k]))
    && (forall k: Key :: k.ws != ws && k in t.mapping && t.mapping[k] in t.fts ==> t.mapping[k] in t'.fts && t'.fts[t.mapping[k]] == t.fts[t.mapping[k]])
    && (forall l: LinkKey :: l.ws != ws ==> (l in t.links <==> l in t'.links) && (l in t.links && l in t'.links ==> t'.links[l] == t.links[l]))
    && (forall k: Key :: k.ws != ws ==> (k in t.directories <==> k in t'.directories))
    && t'.workspaces == t.workspaces
  }

  lemma OthersTransitive(a: Tables, b: Tables, c: Tables, ws: string)
    requires OthersUntouched(a, b, ws) && OthersUntouched(b, c, ws)
    ensures OthersUntouched(a, c, ws)
  {
  }

  lemma RemoveOthers(t: Tables, k: Key)
    requires Linked(t)
    ensures OthersUntouched(t, NoteRemoved(t, k), k.ws)
  {
  }

  lemma InsertOthers(t: Tables, ws: string, note: IndexedNote, rowid: nat)
    requires rowid !in t.fts
    ensures OthersUntouched(t, NoteInserted(t, ws, note, rowid), ws)
  {
    hide LinksAdded;
    forall l: LinkKey { LinksAddedAt(t.links, Key(ws, note.id), note.links, l); }
  }

  lemma RecordOthers(t: Tables, ws: string, paths: seq<string>)
    ensures OthersUntouched(t, DirectoriesRecorded(t, ws, paths), ws)
  {
  }

  lemma RewriteOthers(t: Tables, ws: string, note: IndexedNote, rowid: nat)
    requires Linked(t) && rowid !in NoteRemoved(t, Key(ws, note.id)).fts
    ensures OthersUntouched(t, Rewritten(t, ws, note, rowid), ws)
  {
    hide OthersUntouched, Linked, NoteInserted, Recorded;
    var removed := NoteRemoved(t, Key(ws, note.id));
    var recorded := DirectoriesRecorded(removed, ws, Recorded(ContainingDirectory(note.id)));
    RemoveOthers(t, Key(ws, note.id));
    RecordOthers(removed, ws, Recorded(ContainingDirectory(note.id)));
    InsertOthers(recorded, ws, note, rowid);
    OthersTransitive(t, removed, recorded, ws);
    OthersTransitive(t, recorded, Rewritten(t, ws, note, rowid), ws);
  }

  lemma ClearOthers(t: Tables, ws: string)
    requires Linked(t)
    ensures OthersUntouched(t, Cleared(t, ws), ws)
  {
    forall k: Key | k.ws != ws && k in t.mapping ensures t.mapping[k] in Cleared(t, ws).fts {
      assert t.mapping[k] in t.fts;
    }
  }

  lemma {:induction false} InsertAllOthers(t: Tables, ws: string, notes: seq<IndexedNote>, rowids: seq<nat>)
    requires |rowids| == |notes| && FreshRowids(t.fts.Keys, rowids)
    ensures OthersUntouched(t, NotesInserted(t, ws, notes, rowids), ws)
    decreases |notes|
  {
    if notes == [] {
      OthersSame(t, ws);
    } else {
      hide NoteInserted, OthersUntouched, FreshRowids;
      var n := |notes| - 1;
      FreshLast(t.fts.Keys, rowids);
      InsertAllOthers(t, ws, notes[..n], rowids[..n]);
      InsertAllKeys(t, ws, notes[..n], rowids[..n]);
      InsertOthers(NotesInserted(t, ws, notes[..n], rowids[..n]), ws, notes[n], rowids[n]);
      OthersTransitive(t, NotesInserted(t, ws, notes[..n], rowids[..n]), NotesInserted(t, ws, notes, rowids), ws);
    }
  }

  lemma OthersSame(t: Tables, ws: string)
    ensures OthersUntouched(t, t, ws)
  {
  }

  lemma RebuildOthers(t: Tables, ws: string, scanned: ScannedBundle, rowids: seq<nat>)
    requires Linked(t) && |rowids| == |scanned.notes| && FreshRowids(Cleared(t, ws).fts.Keys, rowids)
    ensures OthersUntouched(t, Rebuilt(t, ws, scanned, rowids), ws)
  {
    hide OthersUntouched, Linked;
    var cleared := Cleared(t, ws);
    var recorded := DirectoriesRecorded(cleared, ws, scanned.directories);
    ClearOthers(t, ws);
    RecordOthers(cleared, ws, scanned.directories);
    InsertAllOthers(recorded, ws, scanned.notes, rowids);
    OthersTransitive(t, cleared, recorded, ws);
    OthersTransitive(t, recorded, Rebuilt(t, ws, scanned, rowids), ws);
  }
}
