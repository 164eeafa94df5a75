/** What a scan lists, said of the file tree itself: names followed from the root down, whatever
    they are called and whatever they lead to. */
module ScanMeanings {
  import opened Text
  import opened SlashPaths
  import opened Sorting
  import opened BundleWalk
  import opened BundleTheorems

  /** Following these names from directory to directory leads to this node. */
  ghost predicate Reaches(entries: seq<Entry>, path: seq<string>, node: Node)
    decreases |path|
  {
    path != [] && exists i :: 0 <= i < |entries| && Step(entries, i, path, node)
  }

  ghost predicate Step(entries: seq<Entry>, i: nat, path: seq<string>, node: Node)
    requires i < |entries| && path != []
    decreases |path|, 0
  {
    entries[i].name == Some(path[0])
    && if |path| == 1 then entries[i].node == node
       else entries[i].node.Folder? && Reaches(entries[i].node.entries, path[1..], node)
  }

  /** No name on the way begins with a dot. */
  ghost predicate InSight(path: seq<string>) {
    forall k :: 0 <= k < |path| ==> path[k] == "" || path[k][0] != '.'
  }

  lemma {:induction false} FindsIt(entries: seq<Entry>, i: nat)
    requires WellFormed(entries) && i < |entries| && Visible(entries[i])
    ensures FindEntry(entries, entries[i].name.value) == Some(entries[i].node)
    decreases |entries|
  {
    var last := |entries| - 1;
    if i < last {
      InitWellFormed(entries);
      FindsIt(entries[..last], i);
      assert entries[i].name != entries[last].name;
    }
  }

  /** What the walk can reach is what is there, in sight, and not a symbolic link. */
  lemma {:induction false} LeadsToWhatIsThere(entries: seq<Entry>, path: seq<string>)
    requires WellFormed(entries) && Leads(entries, path).Some?
    ensures Reaches(entries, path, Leads(entries, path).value) && InSight(path) && !Leads(entries, path).value.Symlink?
    decreases |path|
  {
    FoundSmaller(entries, path[0]);
    var i :| 0 <= i < |entries| && entries[i].node == FindEntry(entries, path[0]).value && Visible(entries[i]) && entries[i].name == Some(path[0]);
    NameFacts(entries, i);
    if |path| > 1 { LeadsToWhatIsThere(entries[i].node.entries, path[1..]); }
    hide WellFormed, Leads;
    assert Step(entries, i, path, Leads(entries, path).value) by { LeadsVia(entries, i, path); }
    forall k | 0 <= k < |path| ensures path[k] == "" || path[k][0] != '.' {
      if k > 0 { assert path[k] == path[1..][k - 1]; }
    }
  }

  lemma LeadsVia(entries: seq<Entry>, i: nat, path: seq<string>)
    requires i < |entries| && path != [] && FindEntry(entries, path[0]) == Some(entries[i].node)
    ensures Leads(entries, path) == if |path| == 1 then Some(entries[i].node)
                                    else if entries[i].node.Folder? then Leads(entries[i].node.entries, path[1..]) else None
  {
  }

  lemma {:induction false} WhatIsThereLeads(entries: seq<Entry>, path: seq<string>, node: Node)
    requires WellFormed(entries) && Reaches(entries, path, node) && InSight(path) && !node.Symlink?
    ensures Leads(entries, path) == Some(node)
    decreases |path|
  {
    var i :| 0 <= i < |entries| && Step(entries, i, path, node);
    assert Visible(entries[i]);
    FindsIt(entries, i);
    LeadsVia(entries, i, path);
    NameFacts(entries, i);
    if |path| > 1 {
      forall k | 0 <= k < |path[1..]| ensures path[1..][k] == "" || path[1..][k][0] != '.' {
        assert path[1..][k] == path[k + 1];
      }
      WhatIsThereLeads(entries[i].node.entries, path[1..], node);
    }
  }

  /** A path leads to one node only. */
  lemma {:induction false} ReachesOne(entries: seq<Entry>, path: seq<string>, a: Node, b: Node)
    requires WellFormed(entries) && Reaches(entries, path, a) && Reaches(entries, path, b)
    ensures a == b
    decreases |path|
  {
    var i :| 0 <= i < |entries| && Step(entries, i, path, a);
    var j :| 0 <= j < |entries| && Step(entries, j, path, b);
    assert i == j;
    NameFacts(entries, i);
    if |path| > 1 { ReachesOne(entries[i].node.entries, path[1..], a, b); }
  }

  lemma {:induction false} RealNames(entries: seq<Entry>, path: seq<string>, node: Node)
    requires WellFormed(entries) && Reaches(entries, path, node)
    ensures path != [] && forall k :: 0 <= k < |path| ==> path[k] != "" && '/' !in path[k]
    decreases |path|
  {
    var i :| 0 <= i < |entries| && Step(entries, i, path, node);
    NameFacts(entries, i);
    if |path| > 1 { RealNames(entries[i].node.entries, path[1..], node); }
    forall k | 0 <= k < |path| ensures path[k] != "" && '/' !in path[k] {
      if k > 0 { assert path[k] == path[1..][k - 1]; }
    }
  }

  /** What walking and sorting leave. */
  ghost predicate IsScan(entries: seq<Entry>, scan: BundleScan) {
    && WellFormed(entries) && NoEmptyPaths(Dirs(entries, [])) && NoEmptyPaths(Notes(entries, []))
    && scan.directories == Sort(ByBytes(), Joined(Dirs(entries, []))) && scan.notes == Sort(ByBytes(), Ids(Notes(entries, [])))
  }

  /** A Markdown file by its name, other than an index or a log. */
  ghost predicate NamesNote(name: string) {
    (exists stem: string :: name == stem + ['.', 'm', 'd']) && name != "index.md" && name != "log.md"
  }

  lemma NoteNames(name: string)
    ensures IsNoteName(name) <==> NamesNote(name)
  {
    if IsNoteName(name) {
      assert name == name[..|name| - 3] + ['.', 'm', 'd'];
    }
  }

  /** Of whatever is there, exactly the directories and notes in sight are listed. */
  lemma WhatIsListed(entries: seq<Entry>, scan: BundleScan, path: seq<string>, node: Node, id: string)
    requires IsScan(entries, scan) && Reaches(entries, path, node)
    ensures Join(path) in scan.directories <==> node.Folder? && InSight(path)
    ensures id + ".md" == Join(path) ==>
              (id in scan.notes <==> node.File? && InSight(path) && NamesNote(path[|path| - 1]))
  {
    hide WellFormed, Leads, IsNoteName, Reaches, InSight, NamesNote, Join, Split;
    ScanIsExact(entries, scan);
    RealNames(entries, path, node);
    SplitJoin(path);
    NoteNames(path[|path| - 1]);
    if InSight(path) && !node.Symlink? {
      WhatIsThereLeads(entries, path, node);
    } else if Leads(entries, path).Some? {
      LeadsToWhatIsThere(entries, path);
      ReachesOne(entries, path, node, Leads(entries, path).value);
    }
  }

  /** A path to this node, its names joined by slashes. */
  ghost predicate PathTo(entries: seq<Entry>, path: seq<string>, node: Node, joined: string) {
    path != [] && Reaches(entries, path, node) && Join(path) == joined
  }

  /** And nothing is listed that is not there. */
  lemma WhatIsListedIsThere(entries: seq<Entry>, scan: BundleScan)
    requires IsScan(entries, scan)
    ensures forall d :: d in scan.directories ==> exists path, node :: PathTo(entries, path, node, d) && node.Folder?
    ensures forall id :: id in scan.notes ==> exists path, node :: PathTo(entries, path, node, id + ".md") && node.File?
  {
    hide WellFormed, Leads, IsNoteName, Reaches, InSight, Join, Split, Sort, Dirs, Notes, Joined, Ids;
    ScanIsExact(entries, scan);
    forall d | d in scan.directories ensures exists path, node :: PathTo(entries, path, node, d) && node.Folder? {
      SplitReaches(entries, d);
    }
    forall id | id in scan.notes ensures exists path, node :: PathTo(entries, path, node, id + ".md") && node.File? {
      SplitReaches(entries, id + ".md");
    }
  }

  lemma SplitReaches(entries: seq<Entry>, joined: string)
    requires WellFormed(entries) && Leads(entries, Split(joined)).Some?
    ensures PathTo(entries, Split(joined), Leads(entries, Split(joined)).value, joined)
  {
    hide WellFormed, Reaches, Join, Split;
    LeadsToWhatIsThere(entries, Split(joined));
    JoinSplit(joined);
  }
}
