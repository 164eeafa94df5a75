/** Whole runs over the index: any mix of inserts, removals, rewrites and rebuilds in several
    workspaces, and a note-by-note session compared with a rebuild. */
module IndexRuns {
  import opened Text
  import opened SlashPaths
  import opened IndexTables
  import opened IndexViews

  // ----- any operations

  /** One finished operation with the row ids it took; a transaction that failed at any of its
      statements was rolled back. */
  datatype Op =
    | RolledBack(ws: string)
    | InsertRows(ws: string, note: IndexedNote, rowid: nat)
    | RemoveRows(ws: string, id: string)
    | RewriteRows(ws: string, note: IndexedNote, rowid: nat)
    | RebuildRows(ws: string, scanned: ScannedBundle, rowids: seq<nat>)

  /** Primary keys, foreign keys and row id allocation let it succeed. */
  ghost predicate Enabled(t: Tables, op: Op) {
    match op
    case RolledBack(_) => true
    case InsertRows(ws, note, rowid) => ws in t.workspaces && Key(ws, note.id) !in t.notes && rowid !in t.fts
    case RemoveRows(_, _) => true
    case RewriteRows(ws, note, rowid) => ws in t.workspaces && rowid !in NoteRemoved(t, Key(ws, note.id)).fts
    case RebuildRows(ws, scanned, rowids) =>
      ws in t.workspaces && DistinctIds(scanned.notes) && |rowids| == |scanned.notes| && FreshRowids(Cleared(t, ws).fts.Keys, rowids)
  }

  function Effect(t: Tables, op: Op): Tables {
    match op
    case RolledBack(_) => t
    case InsertRows(ws, note, rowid) => NoteInserted(t, ws, note, rowid)
    case RemoveRows(ws, id) => NoteRemoved(t, Key(ws, id))
    case RewriteRows(ws, note, rowid) => Rewritten(t, ws, note, rowid)
    case RebuildRows(ws, scanned, rowids) => if |rowids| == |scanned.notes| then Rebuilt(t, ws, scanned, rowids) else t
  }

  ghost predicate RunOf(t: Tables, ops: seq<Op>)
    decreases |ops|
  {
    ops == [] || (Enabled(t, ops[0]) && RunOf(Effect(t, ops[0]), ops[1..]))
  }

  function After(t: Tables, ops: seq<Op>): Tables
    decreases |ops|
  {
    if ops == [] then t else After(Effect(t, ops[0]), ops[1..])
  }

  lemma EffectLinked(t: Tables, op: Op)
    requires Linked(t) && Enabled(t, op)
    ensures Linked(Effect(t, op)) && OthersUntouched(t, Effect(t, op), op.ws)
  {
    hide Linked, OthersUntouched, NoteInserted, NoteRemoved, Rewritten, Rebuilt, Cleared;
    match op {
      case RolledBack(ws) => OthersSame(t, ws);
      case InsertRows(ws, note, rowid) =>
        InsertLinked(t, ws, note, rowid);
        InsertOthers(t, ws, note, rowid);
      case RemoveRows(ws, id) =>
        RemoveLinked(t, Key(ws, id));
        RemoveOthers(t, Key(ws, id));
      case RewriteRows(ws, note, rowid) =>
        RewriteLinked(t, ws, note, rowid);
        RewriteOthers(t, ws, note, rowid);
      case RebuildRows(ws, scanned, rowids) =>
        RebuildLinked(t, ws, scanned, rowids);
        RebuildOthers(t, ws, scanned, rowids);
    }
  }

  /** In every reachable state the mapping is a bijection between notes and full-text rows, so no
      deleted note's text is left behind. */
  lemma {:induction false} RunLinked(t: Tables, ops: seq<Op>)
    requires Linked(t) && RunOf(t, ops)
    ensures Linked(After(t, ops))
    decreases |ops|
  {
    hide Linked, Enabled, Effect;
    if ops != [] {
      EffectLinked(t, ops[0]);
      RunLinked(Effect(t, ops[0]), ops[1..]);
    }
  }

  /** A workspace's own rows in two states, full-text rows under the same ids. */
  ghost predicate SameRows(t: Tables, t': Tables, ws: string) {
    && (forall id :: (Key(ws, id) in t.notes <==> Key(ws, id) in t'.notes)
                     && (Key(ws, id) in t.notes && Key(ws, id) in t'.notes ==> t'.notes[Key(ws, id)] == t.notes[Key(ws, id)]))
    && (forall id :: Key(ws, id) in t.mapping && t.mapping[Key(ws, id)] in t.fts ==>
          Key(ws, id) in t'.mapping && t'.mapping[Key(ws, id)] == t.mapping[Key(ws, id)]
          && t.mapping[Key(ws, id)] in t'.fts && t'.fts[t.mapping[Key(ws, id)]] == t.fts[t.mapping[Key(ws, id)]])
    && (forall s, g :: LinkAt(t.links, LinkKey(ws, s, g)) == LinkAt(t'.links, LinkKey(ws, s, g)))
    && (forall id :: Key(ws, id) in t.directories <==> Key(ws, id) in t'.directories)
  }

  lemma OthersSameRows(t: Tables, t': Tables, acting: string, ws: string)
    requires OthersUntouched(t, t', acting) && ws != acting
    ensures SameRows(t, t', ws)
  {
  }

  lemma SameRowsTransitive(a: Tables, b: Tables, c: Tables, ws: string)
    requires SameRows(a, b, ws) && SameRows(b, c, ws)
    ensures SameRows(a, c, ws)
  {
  }

  /** A run that never names a workspace leaves all its rows as they were. */
  lemma {:induction false} RunIsolated(t: Tables, ops: seq<Op>, ws: string)
    requires Linked(t) && RunOf(t, ops) && forall i :: 0 <= i < |ops| ==> ops[i].ws != ws
    ensures SameRows(t, After(t, ops), ws)
    decreases |ops|
  {
    hide Linked, Enabled, Effect, OthersUntouched;
    if ops != [] {
      EffectLinked(t, ops[0]);
      OthersSameRows(t, Effect(t, ops[0]), ops[0].ws, ws);
      RunIsolated(Effect(t, ops[0]), ops[1..], ws);
      hide SameRows;
      SameRowsTransitive(t, Effect(t, ops[0]), After(t, ops), ws);
    }
  }

  // ----- a session of file changes

  datatype Raw = Raw(bytes: string, modified: int)

  /** What reading a note's bytes yields; parsing and SHA-256 are given. */
  datatype Derived = Derived(title: string, titleKey: string, conformant: bool, text: string, links: seq<LinkEdge>)

  datatype Reading = Reading(hash: string -> string, derive: (string, string) -> Derived)

  datatype Bundle = Bundle(files: map<string, Raw>, dirs: set<string>)

  function Derive(rd: Reading, id: string, raw: Raw): IndexedNote {
    var d := rd.derive(id, raw.bytes);
    IndexedNote(id, d.title, d.titleKey, raw.modified, rd.hash(raw.bytes), d.conformant, d.text, d.links)
  }

  function Contents(rd: Reading, b: Bundle): map<string, IndexedNote> {
    map id | id in b.files :: Derive(rd, id, b.files[id])
  }

  ghost predicate InjectiveHash(rd: Reading) {
    forall x, y :: rd.hash(x) == rd.hash(y) ==> x == y
  }

  /** Every file's directories are in the bundle. */
  ghost predicate Closed(b: Bundle) {
    forall id, p :: id in b.files && p in Recorded(ContainingDirectory(id)) ==> p in b.dirs
  }

  /** The bundle after one note's file is created or changed, in directories made for it. */
  function Changed(b: Bundle, id: string, raw: Raw): Bundle {
    Bundle(b.files[id := raw], b.dirs + set p | p in Recorded(ContainingDirectory(id)))
  }

  /** The stored hash already is this file's. */
  predicate Current(rd: Reading, t: Tables, k: Key, raw: Raw) {
    k in t.notes && t.notes[k].contentHash == rd.hash(raw.bytes)
  }

  /** What `index_note` leaves: nothing touched if the hash is current, else the rows rewritten. */
  ghost predicate IndexedFrom(rd: Reading, t: Tables, t': Tables, ws: string, id: string, raw: Raw, rowid: nat) {
    if Current(rd, t, Key(ws, id), raw) then t' == t
    else rowid !in NoteRemoved(t, Key(ws, id)).fts && t' == Rewritten(t, ws, Derive(rd, id, raw), rowid)
  }

  lemma ChangedContents(rd: Reading, b: Bundle, id: string, raw: Raw)
    ensures Contents(rd, Changed(b, id, raw)) == Contents(rd, b)[id := Derive(rd, id, raw)]
  {
  }

  /** The bundle as the index notices it: a file written again with the same bytes is not read
      again, so its old modification time stays. */
  function Noticed(b: Bundle, id: string, raw: Raw): Bundle {
    if SameBytes(b, id, raw) then b else Changed(b, id, raw)
  }

  predicate SameBytes(b: Bundle, id: string, raw: Raw) {
    id in b.files && b.files[id].bytes == raw.bytes
  }

  /** The stored hash is current exactly when the file's bytes are the ones indexed. */
  lemma CurrentIsSameBytes(rd: Reading, b: Bundle, t: Tables, ws: string, id: string, raw: Raw)
    requires InjectiveHash(rd) && NotesShown(t, ws, Contents(rd, b))
    ensures Current(rd, t, Key(ws, id), raw) <==> SameBytes(b, id, raw)
  {
    if id in b.files {
      assert id in Contents(rd, b) && RowSays(t.notes[Key(ws, id)], Contents(rd, b)[id]);
    }
  }

  /** After one file is created or changed, `index_note` leaves the workspace's rows exactly those
      of the new bundle, modification times included, up to full-text row ids; after one is written
      again with the same bytes, exactly those there were. */
  lemma IndexNoteShows(rd: Reading, b: Bundle, t: Tables, t': Tables, ws: string, id: string, raw: Raw, rowid: nat)
    requires InjectiveHash(rd) && Closed(b) && Linked(t) && ws in t.workspaces && Shows(t, ws, Contents(rd, b), b.dirs)
    requires IndexedFrom(rd, t, t', ws, id, raw, rowid)
    ensures Shows(t', ws, Contents(rd, Noticed(b, id, raw)), Noticed(b, id, raw).dirs)
    ensures FilesShown(rd, t', ws, Noticed(b, id, raw))
    ensures Linked(t') && Closed(Noticed(b, id, raw)) && t'.workspaces == t.workspaces
  {
    hide Linked, Rewritten, NoteRemoved, Recorded, Current, TextsShown, LinksShown, DirectoriesShown;
    CurrentIsSameBytes(rd, b, t, ws, id, raw);
    hide NotesShown, Shows;
    if !Current(rd, t, Key(ws, id), raw) {
      RewriteShows(t, ws, Derive(rd, id, raw), rowid, Contents(rd, b), b.dirs);
      ChangedContents(rd, b, id, raw);
      RewriteLinked(t, ws, Derive(rd, id, raw), rowid);
      RewriteWorkspaces(t, ws, Derive(rd, id, raw), rowid);
    }
    hide FilesShown, Contents, Noticed;
    ShowsFiles(rd, Noticed(b, id, raw), t', ws);
  }

  lemma RewriteWorkspaces(t: Tables, ws: string, note: IndexedNote, rowid: nat)
    ensures Rewritten(t, ws, note, rowid).workspaces == t.workspaces
  {
  }

  /** A file's rows, column by column: what reading its bytes yields, its modification time and its
      hash. */
  ghost predicate FileShown(rd: Reading, t: Tables, ws: string, id: string, raw: Raw) {
    var k, d := Key(ws, id), rd.derive(id, raw.bytes);
    && k in t.notes && t.notes[k].path == id + ".md" && t.notes[k].title == d.title && t.notes[k].titleKey == d.titleKey
    && t.notes[k].lastModified == raw.modified && t.notes[k].contentHash == rd.hash(raw.bytes) && t.notes[k].conformant == d.conformant
    && k in t.mapping && t.mapping[k] in t.fts && t.fts[t.mapping[k]].title == d.title && t.fts[t.mapping[k]].content == d.text
    && forall target :: LinkAt(t.links, LinkKey(ws, id, target)) == EdgeTitle(d.links, target)
  }

  /** The workspace has rows for exactly the bundle's files, each saying what its file does. */
  ghost predicate FilesShown(rd: Reading, t: Tables, ws: string, b: Bundle) {
    && (forall id :: Key(ws, id) in t.notes <==> id in b.files)
    && (forall id :: id in b.files ==> FileShown(rd, t, ws, id, b.files[id]))
  }

  /** An index that shows a bundle says of every file what reading it yields. */
  lemma ShowsFiles(rd: Reading, b: Bundle, t: Tables, ws: string)
    requires Shows(t, ws, Contents(rd, b), b.dirs)
    ensures FilesShown(rd, t, ws, b)
  {
    hide EdgeTitle, DirectoriesShown;
    var content := Contents(rd, b);
    forall id ensures Key(ws, id) in t.notes <==> id in b.files { assert id in content <==> id in b.files; }
    forall id | id in b.files ensures FileShown(rd, t, ws, id, b.files[id]) {
      assert id in content && RowSays(t.notes[Key(ws, id)], content[id]) && TextSays(t.fts[t.mapping[Key(ws, id)]], content[id]);
      forall target ensures LinkAt(t.links, LinkKey(ws, id, target)) == EdgeTitle(rd.derive(id, b.files[id].bytes).links, target) {
        assert LinkAt(t.links, LinkKey(ws, id, target)) == if id in content then EdgeTitle(content[id].links, target) else None;
      }
    }
  }

  datatype Write = Write(id: string, raw: Raw, rowid: nat)

  function AllChanged(b: Bundle, writes: seq<Write>): Bundle
    decreases |writes|
  {
    if writes == [] then b else AllChanged(Changed(b, writes[0].id, writes[0].raw), writes[1..])
  }

  function AllNoticed(b: Bundle, writes: seq<Write>): Bundle
    decreases |writes|
  {
    if writes == [] then b else AllNoticed(Noticed(b, writes[0].id, writes[0].raw), writes[1..])
  }

  /** The notes whose last write left their bytes as they were. */
  function Rewrites(b: Bundle, stale: set<string>, writes: seq<Write>): set<string>
    decreases |writes|
  {
    if writes == [] then stale
    else
      var w := writes[0];
      Rewrites(Noticed(b, w.id, w.raw), if SameBytes(b, w.id, w.raw) then stale + {w.id} else stale - {w.id}, writes[1..])
  }

  /** The bundle on disk and the bundle noticed: the same files, bytes and directories, and the same
      times but for the stale ones. */
  ghost predicate InStep(noticed: Bundle, actual: Bundle, stale: set<string>) {
    && noticed.dirs == actual.dirs && noticed.files.Keys == actual.files.Keys
    && (forall id :: id in noticed.files ==> noticed.files[id].bytes == actual.files[id].bytes)
    && (forall id :: id in noticed.files && id !in stale ==> noticed.files[id] == actual.files[id])
  }

  /** What the index notices of a session is the bundle, but for the modification times of the notes
      whose last write left their bytes as they were. */
  lemma {:induction false} NoticedInStep(noticed: Bundle, actual: Bundle, stale: set<string>, writes: seq<Write>)
    requires InStep(noticed, actual, stale) && Closed(noticed)
    ensures InStep(AllNoticed(noticed, writes), AllChanged(actual, writes), Rewrites(noticed, stale, writes))
    decreases |writes|
  {
    hide Recorded, ContainingDirectory;
    if writes != [] {
      var w := writes[0];
      var next := Noticed(noticed, w.id, w.raw);
      assert next.dirs == Changed(actual, w.id, w.raw).dirs;
      NoticedInStep(next, Changed(actual, w.id, w.raw), if SameBytes(noticed, w.id, w.raw) then stale + {w.id} else stale - {w.id}, writes[1..]);
    }
  }

  /** Such bundles derive the same rows, but for those times. */
  lemma InStepContents(rd: Reading, noticed: Bundle, actual: Bundle, stale: set<string>)
    requires InStep(noticed, actual, stale)
    ensures SameContent(Contents(rd, noticed), Contents(rd, actual), stale)
  {
  }

  /** The tables after each write was indexed. */
  ghost predicate Session(rd: Reading, ws: string, states: seq<Tables>, writes: seq<Write>) {
    && |states| == |writes| + 1
    && forall i :: 0 <= i < |writes| ==> IndexedFrom(rd, states[i], states[i + 1], ws, writes[i].id, writes[i].raw, writes[i].rowid)
  }

  lemma {:induction false} SessionShows(rd: Reading, b: Bundle, ws: string, states: seq<Tables>, writes: seq<Write>)
    requires InjectiveHash(rd) && Closed(b) && Session(rd, ws, states, writes)
    requires Linked(states[0]) && ws in states[0].workspaces && Shows(states[0], ws, Contents(rd, b), b.dirs)
    ensures Shows(states[|writes|], ws, Contents(rd, AllNoticed(b, writes)), AllNoticed(b, writes).dirs)
    ensures FilesShown(rd, states[|writes|], ws, AllNoticed(b, writes))
    ensures InStep(AllNoticed(b, writes), AllChanged(b, writes), Rewrites(b, {}, writes))
    decreases |writes|
  {
    NoticedInStep(b, b, {}, writes);
    hide FilesShown, Shows, Linked, IndexedFrom, Contents, Closed, Noticed, InStep, Changed;
    if writes != [] {
      var w := writes[0];
      IndexNoteShows(rd, b, states[0], states[1], ws, w.id, w.raw, w.rowid);
      forall i | 0 <= i < |writes[1..]|
        ensures IndexedFrom(rd, states[1..][i], states[1..][i + 1], ws, writes[1..][i].id, writes[1..][i].raw, writes[1..][i].rowid)
      {
        ghost var j := i + 1;
        assert IndexedFrom(rd, states[j], states[j + 1], ws, writes[j].id, writes[j].raw, writes[j].rowid);
      }
      SessionShows(rd, Noticed(b, w.id, w.raw), ws, states[1..], writes[1..]);
    }
    ShowsFiles(rd, AllNoticed(b, writes), states[|writes|], ws);
  }

  /** Starting from a rebuild of a bundle, any number of file writes indexed one note at a time
      leave the same index as rebuilding the final bundle from any state, but for the modification
      times of notes whose last write left their bytes as they were; a note's row is the same
      exactly when the time noticed last is the file's. */
  lemma SessionEqualsRebuild(rd: Reading, b: Bundle, ws: string, states: seq<Tables>, writes: seq<Write>,
                             other: Tables, scanned: ScannedBundle, rowids: seq<nat>)
    requires InjectiveHash(rd) && Closed(b) && Session(rd, ws, states, writes)
    requires Linked(states[0]) && ws in states[0].workspaces && Shows(states[0], ws, Contents(rd, b), b.dirs)
    requires Linked(other) && ws in other.workspaces && |rowids| == |scanned.notes| && FreshRowids(Cleared(other, ws).fts.Keys, rowids)
    requires Scans(scanned, Contents(rd, AllChanged(b, writes)), AllChanged(b, writes).dirs)
    ensures SameIndex(states[|writes|], Rebuilt(other, ws, scanned, rowids), ws, Rewrites(b, {}, writes))
    ensures forall id :: id in AllChanged(b, writes).files ==>
              Key(ws, id) in states[|writes|].notes && Key(ws, id) in Rebuilt(other, ws, scanned, rowids).notes
              && id in AllNoticed(b, writes).files
              && (states[|writes|].notes[Key(ws, id)] == Rebuilt(other, ws, scanned, rowids).notes[Key(ws, id)]
                  <==> AllNoticed(b, writes).files[id].modified == AllChanged(b, writes).files[id].modified)
  {
    hide Shows, Linked, IndexedFrom, Rebuilt, SameIndex, Scans, Cleared, Contents, SameContent;
    var noticed, final := AllNoticed(b, writes), AllChanged(b, writes);
    SessionShows(rd, b, ws, states, writes);
    RebuildShows(other, ws, scanned, rowids, Contents(rd, final), final.dirs);
    InStepContents(rd, noticed, final, Rewrites(b, {}, writes));
    ShownTwiceIsSame(states[|writes|], Rebuilt(other, ws, scanned, rowids), ws, Contents(rd, noticed), Contents(rd, final), final.dirs, Rewrites(b, {}, writes));
    RowsAgree(rd, states[|writes|], Rebuilt(other, ws, scanned, rowids), ws, noticed, final, Rewrites(b, {}, writes));
  }

  lemma RowsAgree(rd: Reading, a: Tables, b: Tables, ws: string, noticed: Bundle, final: Bundle, stale: set<string>)
    requires Shows(a, ws, Contents(rd, noticed), noticed.dirs) && Shows(b, ws, Contents(rd, final), final.dirs)
    requires InStep(noticed, final, stale)
    ensures forall id :: id in final.files ==>
              Key(ws, id) in a.notes && Key(ws, id) in b.notes && id in noticed.files
              && (a.notes[Key(ws, id)] == b.notes[Key(ws, id)] <==> noticed.files[id].modified == final.files[id].modified)
  {
    hide TextsShown, LinksShown, DirectoriesShown;
    forall id | id in final.files
      ensures Key(ws, id) in a.notes && Key(ws, id) in b.notes && id in noticed.files
      ensures a.notes[Key(ws, id)] == b.notes[Key(ws, id)] <==> noticed.files[id].modified == final.files[id].modified
    {
      assert id in noticed.files.Keys;
      assert id in Contents(rd, noticed) && id in Contents(rd, final);
      assert RowSays(a.notes[Key(ws, id)], Contents(rd, noticed)[id]) && RowSays(b.notes[Key(ws, id)], Contents(rd, final)[id]);
    }
  }
}
