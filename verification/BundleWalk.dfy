/** Walking a bundle on disk: which notes and directories a scan finds. */
module BundleWalk {
  import opened Text
  import opened SlashPaths
  import opened Sorting
  import opened IndexTables
  import opened IndexViews
  import opened IndexRuns

  /** What a directory holds. A name that is not valid UTF-8 is `None`. */
  datatype Node = File | Folder(entries: seq<Entry>) | Symlink

  datatype Entry = Entry(name: Option<string>, node: Node)

  datatype BundleScan = BundleScan(notes: seq<string>, directories: seq<string>)

  /** What every file system guarantees: names are non-empty, without slashes, and distinct. */
  ghost predicate WellFormed(entries: seq<Entry>)
    decreases entries
  {
    && (forall i :: 0 <= i < |entries| && entries[i].name.Some? ==> entries[i].name.value != "" && '/' !in entries[i].name.value)
    && (forall i, j :: 0 <= i < j < |entries| && entries[i].name.Some? ==> entries[i].name != entries[j].name)
    && (forall i :: 0 <= i < |entries| && entries[i].node.Folder? ==>
          (assert entries[i].node < entries[i]; WellFormed(entries[i].node.entries)))
  }

  // ----- the walk

  predicate Visible(e: Entry) {
    e.name.Some? && !e.node.Symlink? && !("." <= e.name.value)
  }

  predicate EndsWith(name: string, suffix: string) {
    |name| >= |suffix| && name[|name| - |suffix|..] == suffix
  }

  /** A Markdown file that is neither `index.md` nor `log.md`. */
  predicate IsNoteName(name: string) {
    EndsWith(name, ".md") && name != "index.md" && name != "log.md"
  }

  /** `path_to_concept_id` on a path without a leading slash. */
  function StripMd(path: string): string {
    if EndsWith(path, ".md") then path[..|path| - 3] else path
  }

  function Dirs(entries: seq<Entry>, above: seq<string>): seq<seq<string>>
    decreases entries
  {
    if entries == [] then []
    else
      var e := entries[|entries| - 1];
      Dirs(entries[..|entries| - 1], above) +
      if Visible(e) && e.node.Folder? then assert e.node < e; [above + [e.name.value]] + Dirs(e.node.entries, above + [e.name.value]) else []
  }

  function Notes(entries: seq<Entry>, above: seq<string>): seq<seq<string>>
    decreases entries
  {
    if entries == [] then []
    else
      var e := entries[|entries| - 1];
      Notes(entries[..|entries| - 1], above) +
      if !Visible(e) then []
      else if e.node.Folder? then assert e.node < e; Notes(e.node.entries, above + [e.name.value])
      else if IsNoteName(e.name.value) then [above + [e.name.value]]
      else []
  }

  function Joined(paths: seq<seq<string>>): seq<string>
    requires forall i :: 0 <= i < |paths| ==> paths[i] != []
  {
    seq(|paths|, i requires 0 <= i < |paths| => Join(paths[i]))
  }

  function Ids(paths: seq<seq<string>>): seq<string>
    requires forall i :: 0 <= i < |paths| ==> paths[i] != []
  {
    seq(|paths|, i requires 0 <= i < |paths| => StripMd(Join(paths[i])))
  }

  lemma {:induction false} WalkedNonEmpty(entries: seq<Entry>, above: seq<string>)
    ensures forall i :: 0 <= i < |Dirs(entries, above)| ==> Dirs(entries, above)[i] != []
    ensures forall i :: 0 <= i < |Notes(entries, above)| ==> Notes(entries, above)[i] != []
    decreases entries
  {
    if entries != [] {
      var e := entries[|entries| - 1];
      WalkedNonEmpty(entries[..|entries| - 1], above);
      if Visible(e) && e.node.Folder? { assert e.node < e; WalkedNonEmpty(e.node.entries, above + [e.name.value]); }
    }
  }

  lemma JoinOneMore(above: seq<string>, name: string)
    ensures Join(above + [name]) == if above == [] then name else Join(above) + "/" + name
  {
    if above == [] { assert above + [name] == [name]; } else { JoinAppend(above, [name]); }
  }

  lemma JoinedMore(a: seq<seq<string>>, b: seq<seq<string>>)
    requires (forall i :: 0 <= i < |a| ==> a[i] != []) && forall i :: 0 <= i < |b| ==> b[i] != []
    ensures Joined(a + b) == Joined(a) + Joined(b) && Ids(a + b) == Ids(a) + Ids(b)
  {
  }

  /** What one entry adds to the walk. */
  lemma EntryAdds(entries: seq<Entry>, i: nat, above: seq<string>)
    requires i < |entries|
    ensures var e := entries[i];
            Dirs(entries[..i + 1], above) == Dirs(entries[..i], above) +
              (if Visible(e) && e.node.Folder? then [above + [e.name.value]] + Dirs(e.node.entries, above + [e.name.value]) else [])
    ensures var e := entries[i];
            Notes(entries[..i + 1], above) == Notes(entries[..i], above) +
              (if !Visible(e) then []
               else if e.node.Folder? then Notes(e.node.entries, above + [e.name.value])
               else if IsNoteName(e.name.value) then [above + [e.name.value]]
               else [])
  {
    assert entries[..i + 1][..i] == entries[..i];
  }

  ghost predicate NoEmptyPaths(paths: seq<seq<string>>) {
    forall i :: 0 <= i < |paths| ==> paths[i] != []
  }

  lemma SingleJoined(p: seq<string>)
    requires p != []
    ensures Joined([p]) == [Join(p)] && Ids([p]) == [StripMd(Join(p))]
  {
  }

  /** `walk_dir`, pushing into the scan while it recurses. */
  method WalkDir(entries: seq<Entry>, prefix: string, ghost above: seq<string>, start: BundleScan) returns (scan: BundleScan)
    requires prefix == if above == [] then "" else Join(above)
    requires WellFormed(entries) && (prefix == "" ==> above == [])
    ensures NoEmptyPaths(Dirs(entries, above)) && NoEmptyPaths(Notes(entries, above))
    ensures scan.directories == start.directories + Joined(Dirs(entries, above))
    ensures scan.notes == start.notes + Ids(Notes(entries, above))
    decreases entries
  {
    hide WellFormed, IsNoteName, StripMd, Join, Dirs, Notes, Joined, Ids;
    scan := start;
    WalkedNonEmpty(entries, above);
    NothingYet(entries, above);
    for i := 0 to |entries|
      invariant NoEmptyPaths(Dirs(entries[..i], above)) && NoEmptyPaths(Notes(entries[..i], above))
      invariant scan.directories == start.directories + Joined(Dirs(entries[..i], above))
      invariant scan.notes == start.notes + Ids(Notes(entries[..i], above))
    {
      var e := entries[i];
      EntryAdds(entries, i, above);
      WalkedNonEmpty(entries[..i + 1], above);
      ghost var ds, ns := Dirs(entries[..i], above), Notes(entries[..i], above);
      if Visible(e) {
        var name := e.name.value;
        var rel := if prefix == "" then name else prefix + "/" + name;
        ghost var here := above + [name];
        JoinOneMore(above, name);
        SingleJoined(here);
        if e.node.Folder? {
          NameFacts(entries, i);
          JoinNotEmpty(above, name);
          assert e.node < e;
          scan := scan.(directories := scan.directories + [rel]);
          scan := WalkDir(e.node.entries, rel, here, scan);
          JoinedMore([here], Dirs(e.node.entries, here));
          JoinedMore(ds, [here] + Dirs(e.node.entries, here));
          JoinedMore(ns, Notes(e.node.entries, here));
        } else if IsNoteName(name) {
          scan := scan.(notes := scan.notes + [StripMd(rel)]);
          JoinedMore(ns, [here]);
        }
      }
      assert ds + [] == ds && ns + [] == ns;
    }
    assert entries[..|entries|] == entries;
  }

  lemma NothingYet(entries: seq<Entry>, above: seq<string>)
    ensures Dirs(entries[..0], above) == [] && Notes(entries[..0], above) == []
    ensures Joined([]) == [] && Ids([]) == []
  {
  }

  lemma NameFacts(entries: seq<Entry>, i: nat)
    requires WellFormed(entries) && i < |entries|
    ensures entries[i].name.Some? ==> entries[i].name.value != "" && '/' !in entries[i].name.value
    ensures entries[i].node.Folder? ==> WellFormed(entries[i].node.entries)
  {
  }

  lemma JoinNotEmpty(above: seq<string>, name: string)
    requires name != ""
    ensures Join(above + [name]) != ""
  {
    JoinOneMore(above, name);
  }

  function ByBytes(): (string, string) -> bool {
    (a: string, b: string) => Less(a, b)
  }

  /** `walk_bundle`: both lists sorted. */
  method WalkBundle(entries: seq<Entry>) returns (scan: BundleScan)
    requires WellFormed(entries)
    ensures NoEmptyPaths(Dirs(entries, [])) && NoEmptyPaths(Notes(entries, []))
    ensures scan.directories == Sort(ByBytes(), Joined(Dirs(entries, [])))
    ensures scan.notes == Sort(ByBytes(), Ids(Notes(entries, [])))
  {
    hide WellFormed, Sort, Dirs, Notes, Joined, Ids;
    scan := WalkDir(entries, "", [], BundleScan([], []));
    assert [] + Joined(Dirs(entries, [])) == Joined(Dirs(entries, [])) && [] + Ids(Notes(entries, [])) == Ids(Notes(entries, []));
    scan := BundleScan(Sort(ByBytes(), scan.notes), Sort(ByBytes(), scan.directories));
  }

  // ----- what it finds

  function FindEntry(entries: seq<Entry>, name: string): Option<Node> {
    if entries == [] then None
    else if Visible(entries[|entries| - 1]) && entries[|entries| - 1].name == Some(name) then Some(entries[|entries| - 1].node)
    else FindEntry(entries[..|entries| - 1], name)
  }

  lemma {:induction false} FoundSmaller(entries: seq<Entry>, name: string)
    requires FindEntry(entries, name).Some?
    ensures exists i :: 0 <= i < |entries| && entries[i].node == FindEntry(entries, name).value && Visible(entries[i]) && entries[i].name == Some(name)
    decreases |entries|
  {
    var last := |entries| - 1;
    if !(Visible(entries[last]) && entries[last].name == Some(name)) {
      FoundSmaller(entries[..last], name);
      var i :| 0 <= i < last && entries[..last][i].node == FindEntry(entries, name).value && Visible(entries[..last][i]) && entries[..last][i].name == Some(name);
      assert entries[i] == entries[..last][i];
    }
  }

  /** The node a path of visible names leads to. */
  function Leads(entries: seq<Entry>, path: seq<string>): Option<Node>
    decreases |path|
  {
    if path == [] then None
    else
      var found := FindEntry(entries, path[0]);
      if |path| == 1 || found.None? then found
      else if found.value.Folder? then Leads(found.value.entries, path[1..])
      else None
  }

  predicate IsFolder(n: Option<Node>) {
    n.Some? && n.value.Folder?
  }

  predicate IsNote(n: Option<Node>, path: seq<string>) {
    n.Some? && n.value.File? && path != [] && IsNoteName(path[|path| - 1])
  }

  /** The walk lists a path exactly when it leads there. */
  ghost predicate Lists(paths: seq<seq<string>>, entries: seq<Entry>, above: seq<string>, folders: bool) {
    && (forall p :: p in paths <==>
          |p| > |above| && p[..|above|] == above
          && var rest := p[|above|..]; if folders then IsFolder(Leads(entries, rest)) else IsNote(Leads(entries, rest), rest))
    && Distinct(paths)
  }
}
