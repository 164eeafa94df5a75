/** A scan finds exactly the bundle's notes and directories, each once and sorted; the rows it
    leads to are closed under ancestors, so the sidebar shows every one of them. */
module BundleTheorems {
  import opened Text
  import opened SlashPaths
  import opened Sorting
  import opened IndexTables
  import opened IndexViews
  import opened IndexRuns
  import opened WorkspaceTree
  import opened TreeTheorems
  import opened BundleWalk

  // ----- the walk, path by path

  lemma InitWellFormed(entries: seq<Entry>)
    requires WellFormed(entries) && entries != []
    ensures WellFormed(entries[..|entries| - 1])
  {
    assert forall i :: 0 <= i < |entries| - 1 ==> entries[..|entries| - 1][i] == entries[i];
  }

  lemma {:induction false} NotFoundEarlier(entries: seq<Entry>, name: string)
    requires forall i :: 0 <= i < |entries| ==> entries[i].name != Some(name)
    ensures FindEntry(entries, name) == None
    decreases |entries|
  {
    if entries != [] {
      assert forall i :: 0 <= i < |entries| - 1 ==> entries[..|entries| - 1][i] == entries[i];
      NotFoundEarlier(entries[..|entries| - 1], name);
    }
  }

  lemma LeadsLast(entries: seq<Entry>, path: seq<string>)
    requires WellFormed(entries) && entries != [] && path != []
    ensures var last := entries[|entries| - 1];
            if Visible(last) && last.name == Some(path[0]) then
              Leads(entries, path) == (if |path| == 1 then Some(last.node) else if last.node.Folder? then Leads(last.node.entries, path[1..]) else None)
              && Leads(entries[..|entries| - 1], path) == None
            else Leads(entries, path) == Leads(entries[..|entries| - 1], path)
  {
    var last := entries[|entries| - 1];
    if Visible(last) && last.name == Some(path[0]) {
      NotFoundEarlier(entries[..|entries| - 1], path[0]);
    }
  }

  lemma RestOfPath(above: seq<string>, name: string, p: seq<string>)
    requires |p| > |above| && p[..|above|] == above
    ensures p == above + [name] <==> p[|above|..] == [name]
    ensures |p| > |above + [name]| && p[..|above + [name]|] == above + [name] <==> |p[|above|..]| > 1 && p[|above|] == name
    ensures |p| > |above| + 1 ==> p[|above| + 1..] == p[|above|..][1..]
  {
    if |p| > |above| + 1 { assert p[..|above| + 1] == p[..|above|] + [p[|above|]]; }
  }

  /** What the last entry contributes. */
  function LastPart(entries: seq<Entry>, above: seq<string>, folders: bool): seq<seq<string>>
    requires entries != []
  {
    var e := entries[|entries| - 1];
    if !Visible(e) then []
    else if e.node.Folder? then
      (if folders then [above + [e.name.value]] + Dirs(e.node.entries, above + [e.name.value])
       else Notes(e.node.entries, above + [e.name.value]))
    else if !folders && IsNoteName(e.name.value) then [above + [e.name.value]]
    else []
  }

  function Paths(entries: seq<Entry>, above: seq<string>, folders: bool): seq<seq<string>> {
    if folders then Dirs(entries, above) else Notes(entries, above)
  }

  predicate Hit(entries: seq<Entry>, rest: seq<string>, folders: bool) {
    if folders then IsFolder(Leads(entries, rest)) else IsNote(Leads(entries, rest), rest)
  }

  /** Paths listed below a name go through it. */
  lemma ListedBelow(paths: seq<seq<string>>, entries: seq<Entry>, above: seq<string>, name: string, folders: bool)
    requires Lists(paths, entries, above + [name], folders)
    ensures forall p :: p in paths ==> |p| > |above| && p[..|above|] == above && p[|above|] == name && p != above + [name]
  {
    hide Leads;
    forall p | p in paths ensures |p| > |above| && p[..|above|] == above && p[|above|] == name && p != above + [name] {
      assert p[..|above|] == p[..|above + [name]|][..|above|];
      assert p[|above|] == p[..|above + [name]|][|above|];
    }
  }

  ghost predicate WalkedBelow(entries: seq<Entry>, above: seq<string>, folders: bool)
    requires entries != []
  {
    var e := entries[|entries| - 1];
    Visible(e) && e.node.Folder? ==> Lists(Paths(e.node.entries, above + [e.name.value], folders), e.node.entries, above + [e.name.value], folders)
  }

  lemma LastPartDistinct(entries: seq<Entry>, above: seq<string>, folders: bool)
    requires entries != [] && WalkedBelow(entries, above, folders)
    ensures Distinct(LastPart(entries, above, folders))
    ensures forall p :: p in LastPart(entries, above, folders) ==>
              |p| > |above| && p[..|above|] == above && Visible(entries[|entries| - 1]) && entries[|entries| - 1].name == Some(p[|above|])
  {
    hide Dirs, Notes, Leads, IsNoteName;
    var e := entries[|entries| - 1];
    if Visible(e) {
      var here := above + [e.name.value];
      DistinctFew(here);
      if e.node.Folder? {
        var inner := Paths(e.node.entries, here, folders);
        ListedBelow(inner, e.node.entries, above, e.name.value, folders);
        hide Lists;
        if folders { DistinctConcat([here], inner); }
      }
    }
  }

  /** One path through the last entry. */
  lemma LastPartHas(entries: seq<Entry>, above: seq<string>, folders: bool, p: seq<string>)
    requires WellFormed(entries) && entries != [] && WalkedBelow(entries, above, folders)
    requires |p| > |above| && p[..|above|] == above && Visible(entries[|entries| - 1]) && entries[|entries| - 1].name == Some(p[|above|])
    ensures p in LastPart(entries, above, folders) <==> Hit(entries, p[|above|..], folders)
  {
    hide WellFormed, Dirs, Notes, Leads, IsNoteName, Distinct;
    var e := entries[|entries| - 1];
    var here, rest := above + [e.name.value], p[|above|..];
    LeadsLast(entries, rest);
    RestOfPath(above, e.name.value, p);
    assert rest[|rest| - 1] == p[|p| - 1];
    if |rest| == 1 {
      if e.node.Folder? { ListedBelow(Paths(e.node.entries, here, folders), e.node.entries, above, e.name.value, folders); }
    } else {
      assert rest[1..][|rest| - 2] == rest[|rest| - 1];
      assert p != here;
    }
  }

  /** The paths that go through the last entry. */
  lemma LastPartLists(entries: seq<Entry>, above: seq<string>, folders: bool)
    requires WellFormed(entries) && entries != [] && WalkedBelow(entries, above, folders)
    ensures var part := LastPart(entries, above, folders); var e := entries[|entries| - 1];
            (forall p :: p in part <==> |p| > |above| && p[..|above|] == above && Visible(e) && e.name == Some(p[|above|])
                                        && Hit(entries, p[|above|..], folders))
            && Distinct(part)
  {
    hide *;
    LastPartDistinct(entries, above, folders);
    var e := entries[|entries| - 1];
    forall p: seq<string> | |p| > |above| && p[..|above|] == above && Visible(e) && e.name == Some(p[|above|])
      ensures p in LastPart(entries, above, folders) <==> Hit(entries, p[|above|..], folders)
    {
      LastPartHas(entries, above, folders, p);
    }
  }

  lemma {:induction false} WalkLists(entries: seq<Entry>, above: seq<string>, folders: bool)
    requires WellFormed(entries)
    ensures Lists(Paths(entries, above, folders), entries, above, folders)
    decreases entries
  {
    hide WellFormed, Leads, IsNoteName;
    if entries == [] {
      NothingThere(above, folders);
    } else {
      var e := entries[|entries| - 1];
      InitWellFormed(entries);
      WalkLists(entries[..|entries| - 1], above, folders);
      NameFacts(entries, |entries| - 1);
      if Visible(e) && e.node.Folder? {
        assert e.node < e;
        WalkLists(e.node.entries, above + [e.name.value], folders);
      }
      LastPartLists(entries, above, folders);
      Combined(entries, above, folders);
    }
  }

  lemma NothingThere(above: seq<string>, folders: bool)
    ensures Lists(Paths([], above, folders), [], above, folders)
  {
    forall p: seq<string> | |p| > |above| ensures Leads([], p[|above|..]) == None { }
  }

  /** The paths before the last entry and through it make up the whole. */
  lemma Combined(entries: seq<Entry>, above: seq<string>, folders: bool)
    requires WellFormed(entries) && entries != []
    requires Lists(Paths(entries[..|entries| - 1], above, folders), entries[..|entries| - 1], above, folders)
    requires var part := LastPart(entries, above, folders); var e := entries[|entries| - 1];
             (forall p :: p in part <==> |p| > |above| && p[..|above|] == above && Visible(e) && e.name == Some(p[|above|])
                                         && Hit(entries, p[|above|..], folders))
             && Distinct(part)
    ensures Lists(Paths(entries, above, folders), entries, above, folders)
  {
    hide WellFormed, Leads, IsNoteName, LastPart;
    var a, b := Paths(entries[..|entries| - 1], above, folders), LastPart(entries, above, folders);
    assert Paths(entries, above, folders) == a + b by { PathsLast(entries, above, folders); }
    forall p | |p| > |above| && p[..|above|] == above
      ensures p in a + b <==> Hit(entries, p[|above|..], folders)
      ensures p in a ==> p !in b
    {
      LeadsLast(entries, p[|above|..]);
    }
    DistinctConcat(a, b);
  }

  lemma PathsLast(entries: seq<Entry>, above: seq<string>, folders: bool)
    requires entries != []
    ensures Paths(entries, above, folders) == Paths(entries[..|entries| - 1], above, folders) + LastPart(entries, above, folders)
  {
  }

  // ----- the walk, name by name

  lemma {:induction false} SplitName(name: string)
    requires '/' !in name
    ensures Split(name) == [name]
  {
    if name != "" {
      SplitName(name[1..]);
      assert name == [name[0]] + name[1..];
    }
  }

  lemma {:induction false} SplitJoin(parts: seq<string>)
    requires parts != [] && forall i :: 0 <= i < |parts| ==> '/' !in parts[i]
    ensures Split(Join(parts)) == parts
    decreases |parts|
  {
    SplitName(parts[0]);
    if |parts| > 1 {
      SplitJoin(parts[1..]);
      SplitAppend(parts[0], Join(parts[1..]));
    }
  }

  /** Names on a path that leads somewhere are real names. */
  lemma {:induction false} LeadsNames(entries: seq<Entry>, path: seq<string>)
    requires WellFormed(entries) && Leads(entries, path).Some?
    ensures forall i :: 0 <= i < |path| ==> path[i] != "" && '/' !in path[i] && !("." <= path[i])
    decreases |path|
  {
    FoundSmaller(entries, path[0]);
    var k :| 0 <= k < |entries| && entries[k].node == FindEntry(entries, path[0]).value && Visible(entries[k]) && entries[k].name == Some(path[0]);
    NameFacts(entries, k);
    if |path| > 1 { LeadsNames(entries[k].node.entries, path[1..]); }
  }

  /** Every ancestor of what a path leads to is a folder it leads through. */
  lemma {:induction false} LeadsThrough(entries: seq<Entry>, path: seq<string>, n: nat)
    requires Leads(entries, path).Some? && 0 < n < |path|
    ensures IsFolder(Leads(entries, path[..n]))
    decreases |path|
  {
    var found := FindEntry(entries, path[0]);
    if n > 1 {
      LeadsThrough(found.value.entries, path[1..], n - 1);
      assert path[..n][1..] == path[1..][..n - 1];
    }
  }

  /** A note's file is its id with `.md` appended. */
  lemma StripAppend(path: string)
    requires EndsWith(path, ".md")
    ensures StripMd(path) + ".md" == path
  {
  }

  lemma {:induction false} JoinEnds(parts: seq<string>)
    requires parts != [] && EndsWith(parts[|parts| - 1], ".md")
    ensures EndsWith(Join(parts), ".md")
    decreases |parts|
  {
    if |parts| > 1 {
      JoinEnds(parts[1..]);
      var rest := Join(parts[1..]);
      assert Join(parts)[|Join(parts)| - 3..] == rest[|rest| - 3..];
    }
  }

  ghost predicate SortedStrings(s: seq<string>) {
    forall i, j :: 0 <= i < j < |s| ==> Less(s[i], s[j])
  }

  lemma SortedDistinctStrings(s: seq<string>, r: seq<string>)
    requires Distinct(s) && r == Sort(ByBytes(), s)
    ensures SortedStrings(r) && Distinct(r) && forall x :: x in r <==> x in s
  {
    ByBytesOrders();
    SortSorts(ByBytes(), s);
    SameMembers(r, s);
    DistinctByCount(s, r);
    forall i, j | 0 <= i < j < |r| ensures Less(r[i], r[j]) {
      assert !ByBytes()(r[j], r[i]);
      LessTotal(r[i], r[j]);
    }
  }

  lemma ByBytesOrders()
    ensures Ordering(ByBytes())
  {
    forall a: string, b: string, c: string
      ensures Less(a, b) ==> !Less(b, a)
      ensures Less(a, b) && Less(b, c) ==> Less(a, c)
      ensures !Less(a, b) && !Less(b, c) ==> !Less(a, c)
    {
      LessOrder(a, b, c);
    }
  }

  /** Walked paths, joined: each once, and found again by splitting. */
  lemma JoinedLists(entries: seq<Entry>)
    requires WellFormed(entries)
    ensures NoEmptyPaths(Dirs(entries, [])) && Distinct(Joined(Dirs(entries, [])))
    ensures forall d :: d in Joined(Dirs(entries, [])) <==> IsFolder(Leads(entries, Split(d)))
  {
    hide Leads, WellFormed, Dirs;
    WalkedNonEmpty(entries, []);
    WalkLists(entries, [], true);
    var paths := Dirs(entries, []);
    forall p | p in paths ensures p != [] && p[0..] == p && IsFolder(Leads(entries, p)) && Split(Join(p)) == p {
      assert p[0..] == p && p[..0] == [];
      LeadsNames(entries, p);
      SplitJoin(p);
    }
    forall i | 0 <= i < |paths| ensures Split(Joined(paths)[i]) == paths[i] { assert paths[i] in paths; }
    forall d ensures d in Joined(paths) <==> IsFolder(Leads(entries, Split(d))) {
      if IsFolder(Leads(entries, Split(d))) {
        assert Split(d)[..0] == [] && Split(d)[0..] == Split(d) && Split(d) in paths;
        var i :| 0 <= i < |paths| && paths[i] == Split(d);
        JoinSplit(d);
        assert Joined(paths)[i] == d;
      }
    }
    assert Distinct(paths);
    forall i, j | 0 <= i < j < |paths| ensures Joined(paths)[i] != Joined(paths)[j] { assert paths[i] != paths[j]; }
  }

  predicate IsNoteId(entries: seq<Entry>, id: string) {
    IsNote(Leads(entries, Split(id + ".md")), Split(id + ".md"))
  }

  lemma NoteIdOf(entries: seq<Entry>, p: seq<string>)
    requires WellFormed(entries) && p != [] && IsNote(Leads(entries, p), p)
    ensures StripMd(Join(p)) + ".md" == Join(p) && Split(Join(p)) == p && IsNoteId(entries, StripMd(Join(p)))
  {
    LeadsNames(entries, p);
    SplitJoin(p);
    JoinEnds(p);
    StripAppend(Join(p));
  }

  lemma IdLists(entries: seq<Entry>)
    requires WellFormed(entries)
    ensures NoEmptyPaths(Notes(entries, [])) && Distinct(Ids(Notes(entries, [])))
    ensures forall id :: id in Ids(Notes(entries, [])) <==> IsNoteId(entries, id)
  {
    hide Leads, WellFormed, Notes, StripMd, IsNoteName;
    WalkedNonEmpty(entries, []);
    WalkLists(entries, [], false);
    var paths := Notes(entries, []);
    forall p | p in paths
      ensures p != [] && StripMd(Join(p)) + ".md" == Join(p) && Split(Join(p)) == p && IsNoteId(entries, StripMd(Join(p)))
    {
      assert p[0..] == p && p[..0] == [];
      NoteIdOf(entries, p);
    }
    forall i | 0 <= i < |paths|
      ensures Split(Ids(paths)[i] + ".md") == paths[i] && IsNoteId(entries, Ids(paths)[i])
    {
      assert paths[i] in paths;
    }
    forall id | IsNoteId(entries, id) ensures id in Ids(paths) {
      var p := Split(id + ".md");
      assert p[..0] == [] && p[0..] == p && p in paths;
      var i :| 0 <= i < |paths| && paths[i] == p;
      JoinSplit(id + ".md");
      assert Ids(paths)[i] == id by { StripBack(id); }
    }
    assert Distinct(paths);
    forall i, j | 0 <= i < j < |paths| ensures Ids(paths)[i] != Ids(paths)[j] { assert paths[i] != paths[j]; }
  }

  lemma StripBack(id: string)
    ensures StripMd(id + ".md") == id
  {
  }

  /** The scan finds exactly the visible directories and the visible Markdown files that are not
      reserved, whatever order the directories list them in: each once, sorted by bytes. */
  lemma ScanIsExact(entries: seq<Entry>, scan: BundleScan)
    requires WellFormed(entries) && NoEmptyPaths(Dirs(entries, [])) && NoEmptyPaths(Notes(entries, []))
    requires scan.directories == Sort(ByBytes(), Joined(Dirs(entries, []))) && scan.notes == Sort(ByBytes(), Ids(Notes(entries, [])))
    ensures SortedStrings(scan.directories) && forall d :: d in scan.directories <==> IsFolder(Leads(entries, Split(d)))
    ensures SortedStrings(scan.notes) && forall id :: id in scan.notes <==> IsNoteId(entries, id)
  {
    hide Leads, WellFormed, Notes, Dirs, Sort, IsNoteId;
    JoinedLists(entries);
    IdLists(entries);
    SortedDistinctStrings(Joined(Dirs(entries, [])), scan.directories);
    SortedDistinctStrings(Ids(Notes(entries, [])), scan.notes);
  }

  // ----- ancestors

  lemma {:induction false} LastSlash(id: string)
    requires '/' in id
    ensures id == ContainingDirectory(id) + "/" + LastSegment(id) && '/' !in LastSegment(id)
    decreases |id|
  {
    if id[|id| - 1] != '/' { LastSlash(id[..|id| - 1]); }
  }

  lemma SplitLast(id: string)
    ensures '/' in id ==> Split(id) == Split(ContainingDirectory(id)) + [LastSegment(id)]
    ensures '/' !in id ==> Split(id) == [id] && ContainingDirectory(id) == ""
  {
    if '/' in id {
      LastSlash(id);
      SplitAppend(ContainingDirectory(id), LastSegment(id));
      SplitName(LastSegment(id));
    } else {
      SplitName(id);
    }
  }

  lemma {:induction false} NothingDropped(segments: seq<string>)
    requires "" !in segments
    ensures NonEmpty(segments) == segments
    decreases |segments|
  {
    if segments != [] {
      assert segments == segments[..|segments| - 1] + [segments[|segments| - 1]];
      NothingDropped(segments[..|segments| - 1]);
    }
  }

  /** The directories recorded for a note are exactly those above it, from the top down. */
  lemma {:induction false} RecordedIsChain(id: string)
    requires "" !in Split(id)
    ensures Recorded(id) == Chain(id) + [id] && Recorded(ContainingDirectory(id)) == Chain(id)
    ensures "" !in Split(ContainingDirectory(id)) || ContainingDirectory(id) == ""
    decreases |id|
  {
    if id == "" { SplitName(id); }
    SplitLast(id);
    var up, parts := ContainingDirectory(id), Split(id);
    NothingDropped(parts);
    if '/' in id {
      ContainingShorter(id);
      LastSlash(id);
      assert forall x :: x in Split(up) ==> x in parts;
      if up == "" { SplitName(up); }
      RecordedIsChain(up);
      NothingDropped(Split(up));
      assert parts[..|parts| - 1] == Split(up) && parts[|parts| - 1] == LastSegment(id);
      var before := Prefixes(Split(up));
      assert before == Chain(up) + [up];
    } else {
      assert parts == [id] && parts[..0] == [];
      assert Prefixes(parts[..0]) == [] && Prefixes(parts) == [] + [id];
    }
  }

  /** A bundle whose ids have no empty segments and whose directories include every ancestor. */
  ghost predicate AncestorsPresent(b: Bundle) {
    && (forall id :: id in b.files ==> "" !in Split(id) && forall p :: p in Chain(id) ==> p in b.dirs)
    && (forall d :: d in b.dirs ==> "" !in Split(d) && forall p :: p in Chain(d) ==> p in b.dirs)
  }

  lemma PresentIsClosed(b: Bundle)
    requires AncestorsPresent(b)
    ensures Closed(b)
  {
    forall id, p | id in b.files && p in Recorded(ContainingDirectory(id)) ensures p in b.dirs {
      RecordedIsChain(id);
    }
  }

  lemma {:induction false} ChainOfChain(id: string, p: string)
    requires p in Chain(id) && "" !in Split(id)
    ensures "" !in Split(p) && forall q :: q in Chain(p) ==> q in Chain(id)
    decreases |id|
  {
    ContainingShorter(id);
    RecordedIsChain(id);
    var up := ContainingDirectory(id);
    if p != up { ChainOfChain(up, p); }
  }

  /** Changing a file keeps it so. */
  lemma ChangeKeepsAncestors(b: Bundle, id: string, raw: Raw)
    requires AncestorsPresent(b) && "" !in Split(id)
    ensures AncestorsPresent(Changed(b, id, raw))
  {
    var b' := Changed(b, id, raw);
    RecordedIsChain(id);
    forall d | d in b'.dirs ensures "" !in Split(d) && forall p :: p in Chain(d) ==> p in b'.dirs {
      if d !in b.dirs { ChainOfChain(id, d); }
    }
  }

  /** The sidebar over an index that shows such a bundle: every note and every directory exactly
      once, beneath exactly its own ancestors, and nothing else, in whatever order the rows come. */
  lemma TreeShowsBundle(lower: string -> string, rd: Reading, b: Bundle, t: Tables, ws: string, dirs: seq<string>, notes: seq<NoteLine>)
    requires AncestorsPresent(b) && Shows(t, ws, Contents(rd, b), b.dirs)
    requires Distinct(dirs) && forall d :: d in dirs <==> Key(ws, d) in t.directories
    requires DistinctNotes(notes)
    requires forall n :: n in notes <==> Key(ws, n.id) in t.notes && n == NoteLine(n.id, t.notes[Key(ws, n.id)].path, t.notes[Key(ws, n.id)].title)
    ensures "" !in dirs
    ensures Distinct(Items(Level(lower, dirs, notes, ""), []))
    ensures forall item :: item in Items(Level(lower, dirs, notes, ""), []) <==>
              item.above == Chain(IdOf(item.row))
              && match item.row
                 case OfDir(d) => d in b.dirs
                 case OfNote(n) => n.id in b.files && n.path == n.id + ".md" && n.title == Contents(rd, b)[n.id].title
  {
    hide Level, Items, TextsShown, LinksShown, Distinct, DistinctNotes, Chain;
    assert forall d :: d in dirs <==> d in b.dirs;
    assert "" !in dirs by { SplitName(""); }
    forall n | n in notes ensures n.id != "" && n.id in b.files && n.path == n.id + ".md" && n.title == Contents(rd, b)[n.id].title {
      assert n.id in Contents(rd, b) && RowSays(t.notes[Key(ws, n.id)], Contents(rd, b)[n.id]);
      SplitName("");
    }
    forall n: NoteLine | n.id in b.files && n.path == n.id + ".md" && n.title == Contents(rd, b)[n.id].title ensures n in notes {
      assert n.id in Contents(rd, b) && RowSays(t.notes[Key(ws, n.id)], Contents(rd, b)[n.id]);
    }
    TreeLists(lower, dirs, notes);
    forall id | id in b.files || id in b.dirs ensures Complete(dirs, id) { }
  }

  lemma {:induction false} SessionKeepsAncestors(b: Bundle, writes: seq<Write>)
    requires AncestorsPresent(b) && forall i :: 0 <= i < |writes| ==> "" !in Split(writes[i].id)
    ensures AncestorsPresent(AllChanged(b, writes))
    decreases |writes|
  {
    hide AncestorsPresent, Changed;
    if writes != [] {
      ChangeKeepsAncestors(b, writes[0].id, writes[0].raw);
      SessionKeepsAncestors(Changed(b, writes[0].id, writes[0].raw), writes[1..]);
    }
  }

  lemma SamePresent(a: Bundle, b: Bundle)
    requires AncestorsPresent(b) && a.files.Keys == b.files.Keys && a.dirs == b.dirs
    ensures AncestorsPresent(a)
  {
    assert forall id :: id in a.files <==> id in b.files;
  }

  lemma ContentsKeys(rd: Reading, b: Bundle)
    ensures Contents(rd, b).Keys == b.files.Keys
  {
  }

  /** However many files were changed and indexed one at a time, the sidebar shows the bundle as it
      is now: each note and directory exactly once beneath its own ancestors. */
  lemma SessionTree(lower: string -> string, rd: Reading, b: Bundle, ws: string, states: seq<Tables>, writes: seq<Write>,
                    dirs: seq<string>, notes: seq<NoteLine>)
    requires InjectiveHash(rd) && AncestorsPresent(b) && Session(rd, ws, states, writes)
    requires forall i :: 0 <= i < |writes| ==> "" !in Split(writes[i].id)
    requires Linked(states[0]) && ws in states[0].workspaces && Shows(states[0], ws, Contents(rd, b), b.dirs)
    requires Distinct(dirs) && forall d :: d in dirs <==> Key(ws, d) in states[|writes|].directories
    requires DistinctNotes(notes)
    requires var t := states[|writes|];
             forall n :: n in notes <==> Key(ws, n.id) in t.notes && n == NoteLine(n.id, t.notes[Key(ws, n.id)].path, t.notes[Key(ws, n.id)].title)
    ensures "" !in dirs
    ensures var final := AllChanged(b, writes);
            Distinct(Items(Level(lower, dirs, notes, ""), []))
            && forall item :: item in Items(Level(lower, dirs, notes, ""), []) <==>
                 item.above == Chain(IdOf(item.row))
                 && match item.row
                    case OfDir(d) => d in final.dirs
                    case OfNote(n) => n.id in final.files && n.path == n.id + ".md" && n.title == Contents(rd, final)[n.id].title
  {
    hide Shows, Linked, AncestorsPresent, Changed, AllChanged, AllNoticed, Level, Items, Chain, IndexedFrom, Contents, Distinct, DistinctNotes, Rewrites;
    PresentIsClosed(b);
    SessionKeepsAncestors(b, writes);
    SessionShows(rd, b, ws, states, writes);
    var noticed, final := AllNoticed(b, writes), AllChanged(b, writes);
    InStepContents(rd, noticed, final, Rewrites(b, {}, writes));
    assert AncestorsPresent(noticed) by { SamePresent(noticed, final); }
    TreeShowsBundle(lower, rd, noticed, states[|writes|], ws, dirs, notes);
    assert forall id :: id in final.files ==> Contents(rd, noticed)[id].title == Contents(rd, final)[id].title by { ContentsKeys(rd, noticed); }
  }

  /** The notes read, in the order walked; one that vanished in between is skipped. */
  function ReadAll(rd: Reading, ids: seq<string>, files: map<string, Raw>): seq<IndexedNote> {
    if ids == [] then []
    else
      var n := |ids| - 1;
      ReadAll(rd, ids[..n], files) + if ids[n] in files then [Derive(rd, ids[n], files[ids[n]])] else []
  }

  /** Every listed id whose file can be read has its note. */
  lemma {:induction false} ReadAllCovers(rd: Reading, ids: seq<string>, files: map<string, Raw>, id: string)
    requires id in ids && id in files
    ensures exists k :: 0 <= k < |ReadAll(rd, ids, files)| && ReadAll(rd, ids, files)[k].id == id
    decreases |ids|
  {
    var n := |ids| - 1;
    var before := ReadAll(rd, ids[..n], files);
    if id == ids[n] {
      assert ReadAll(rd, ids, files)[|before|].id == id;
    } else {
      assert id in ids[..n] by { assert ids == ids[..n] + [ids[n]]; }
      ReadAllCovers(rd, ids[..n], files, id);
      var k :| 0 <= k < |before| && before[k].id == id;
      assert ReadAll(rd, ids, files)[k].id == id;
    }
  }

  lemma {:induction false} ReadAllNotes(rd: Reading, ids: seq<string>, files: map<string, Raw>)
    requires SortedStrings(ids)
    ensures var notes := ReadAll(rd, ids, files);
            (forall k :: 0 <= k < |notes| ==> notes[k].id in ids && notes[k].id in files && notes[k] == Derive(rd, notes[k].id, files[notes[k].id]))
            && (forall id :: id in ids && id in files ==> exists k :: 0 <= k < |notes| && notes[k].id == id)
            && DistinctIds(notes)
    decreases |ids|
  {
    if ids != [] {
      var n := |ids| - 1;
      assert ids == ids[..n] + [ids[n]];
      ReadAllNotes(rd, ids[..n], files);
      NotAgainSorted(ids, n);
    }
    forall id | id in ids && id in files ensures exists k :: 0 <= k < |ReadAll(rd, ids, files)| && ReadAll(rd, ids, files)[k].id == id {
      ReadAllCovers(rd, ids, files, id);
    }
  }

  /** What was on disk when it was read. */
  function BundleRead(scan: BundleScan, files: map<string, Raw>): Bundle {
    Bundle(map id | id in scan.notes && id in files :: files[id], set d | d in scan.directories)
  }

  lemma ReadScans(rd: Reading, scan: BundleScan, files: map<string, Raw>)
    requires SortedStrings(scan.notes)
    ensures var b := BundleRead(scan, files);
            Scans(ScannedBundle(scan.directories, ReadAll(rd, scan.notes, files)), Contents(rd, b), b.dirs)
  {
    hide Derive, DistinctIds, SortedStrings;
    ReadAllNotes(rd, scan.notes, files);
  }

  /** The bundle on disk: the notes of the file tree that can be read, and its directories. */
  function BundleAt(entries: seq<Entry>, files: map<string, Raw>, directories: seq<string>): Bundle {
    Bundle(map id | id in files && IsNoteId(entries, id) :: files[id], set d | d in directories)
  }

  /** `scan_bundle`: walk, then read each note. */
  method ScanBundle(rd: Reading, entries: seq<Entry>, files: map<string, Raw>) returns (scanned: ScannedBundle)
    requires WellFormed(entries)
    ensures SortedStrings(scanned.directories) && forall d :: d in scanned.directories <==> IsFolder(Leads(entries, Split(d)))
    ensures var b := BundleAt(entries, files, scanned.directories); Scans(scanned, Contents(rd, b), b.dirs)
  {
    hide Leads, WellFormed, Notes, Dirs, Sort, IsNoteId, Derive, SortedStrings, Scans, Contents;
    var scan := WalkBundle(entries);
    ScanIsExact(entries, scan);
    ReadScans(rd, scan, files);
    assert BundleRead(scan, files) == BundleAt(entries, files, scan.directories);
    var notes: seq<IndexedNote> := [];
    for i := 0 to |scan.notes|
      invariant notes == ReadAll(rd, scan.notes[..i], files)
    {
      assert scan.notes[..i + 1][..i] == scan.notes[..i];
      if scan.notes[i] in files { notes := notes + [Derive(rd, scan.notes[i], files[scan.notes[i]])]; }
    }
    assert scan.notes[..|scan.notes|] == scan.notes;
    scanned := ScannedBundle(scan.directories, notes);
  }

  lemma NotAgainSorted(s: seq<string>, i: nat)
    requires SortedStrings(s) && i < |s|
    ensures s[i] !in s[..i]
  {
    forall k | 0 <= k < i ensures s[k] != s[i] { LessTotal(s[k], s[i]); }
  }

  /** A scanned bundle has every ancestor of every note and directory. */
  lemma ScannedAncestors(entries: seq<Entry>, b: Bundle)
    requires WellFormed(entries)
    requires forall id :: id in b.files ==> IsNoteId(entries, id)
    requires forall d :: d in b.dirs <==> IsFolder(Leads(entries, Split(d)))
    ensures AncestorsPresent(b)
  {
    hide Leads, WellFormed, IsNoteName;
    forall d | d in b.dirs ensures "" !in Split(d) && forall p :: p in Chain(d) ==> p in b.dirs {
      LeadsNames(entries, Split(d));
      AncestorsLead(entries, d, b.dirs);
    }
    forall id | id in b.files ensures "" !in Split(id) && forall p :: p in Chain(id) ==> p in b.dirs {
      LeadsNames(entries, Split(id + ".md"));
      NotePath(id);
      if '/' in id {
        AncestorsLead(entries, id + ".md", b.dirs);
      }
    }
  }

  /** The chain of a note's file and of its id are the same, and its id has no empty segment. */
  lemma NotePath(id: string)
    requires "" !in Split(id + ".md") && !("." <= Split(id + ".md")[|Split(id + ".md")| - 1])
    ensures "" !in Split(id) && Chain(id) == Chain(id + ".md")
  {
    var path := id + ".md";
    SplitLast(id);
    SplitLast(path);
    if '/' in id {
      LastSlash(id);
      LastSlash(path);
      SameContaining(id);
      assert forall x :: x in Split(ContainingDirectory(id)) ==> x in Split(path);
      assert LastSegment(path) == LastSegment(id) + ".md" && (LastSegment(id) == "" ==> "." <= LastSegment(path));
    } else {
      assert '/' !in path && (id == "" ==> "." <= path);
    }
  }

  lemma AppendChar(id: string, c: char)
    requires '/' in id && c != '/'
    ensures ContainingDirectory(id + [c]) == ContainingDirectory(id) && LastSegment(id + [c]) == LastSegment(id) + [c]
  {
    var path := id + [c];
    assert path[|path| - 1] == c && path[..|path| - 1] == id && '/' in path;
  }

  lemma SameContaining(id: string)
    requires '/' in id
    ensures ContainingDirectory(id + ".md") == ContainingDirectory(id) && LastSegment(id + ".md") == LastSegment(id) + ".md"
  {
    AppendChar(id, '.');
    AppendChar(id + ['.'], 'm');
    AppendChar(id + ['.'] + ['m'], 'd');
    assert id + ['.'] + ['m'] + ['d'] == id + ".md";
    assert LastSegment(id) + ['.'] + ['m'] + ['d'] == LastSegment(id) + ".md";
  }

  lemma {:induction false} AncestorsLead(entries: seq<Entry>, path: string, dirs: set<string>)
    requires Leads(entries, Split(path)).Some? && "" !in Split(path)
    requires forall d :: d in dirs <==> IsFolder(Leads(entries, Split(d)))
    ensures forall p :: p in Chain(path) ==> p in dirs
    decreases |path|
  {
    var up := ContainingDirectory(path);
    SplitLast(path);
    RecordedIsChain(path);
    if up != "" {
      ContainingShorter(path);
      LeadsThrough(entries, Split(path), |Split(path)| - 1);
      assert Split(path)[..|Split(path)| - 1] == Split(up);
      AncestorsLead(entries, up, dirs);
    }
  }
}
